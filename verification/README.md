# A verified model of the aesdchar driver and the aesdsocket server

The repository holds a character device driver that keeps the newest ten
newline-terminated writes, and a threaded socket server that appends every
newline-terminated packet it receives to one file and echoes the whole file
back. Built with `USE_AESD_CHAR_DEVICE`, the server's file is that device.
This project models both, and the two together, and proves what they promise.

## How it is laid out

| file | models |
|---|---|
| Prelude.dfy | bytes, concatenations, slices and prefix sums |
| CircularBuffer.dfy | the ring: `Ring` is its value, `AesdCircularBuffer` the struct updated in place |
| DeviceSpec.dfy | what the device means: a pending string and the newest committed strings |
| CharDevice.dfy | `aesd_read`, `aesd_write` and the kernel allocations: `Dev` as a value, `AesdDev` updated in place |
| DeviceConcurrency.dfy | any number of threads inside the driver, step by step |
| DeviceAnswers.dfy | which result each of their calls gets, from the answers of the allocator and the user copies |
| Framing.dfy | the newline split of a byte stream |
| Connection.dfy | the receiving half of a connection thread and its two buffers |
| DataFile.dfy | the file, regular or device, behind the system calls on it |
| ServerThread.dfy | `sending_data`, `write_time_stamp` and the whole connection thread |
| ThreadList.dfy | the SLIST macros and `join_threads` on a heap list |
| MainLoop.dfy | `main_loop`: accept, create, join, drain |
| ServerConcurrency.dfy | any number of connections and the timestamp writer on one regular file |
| ServerAnswers.dfy | what becomes of each of them, from the answers of its system calls |
| ServerProtocol.dfy | in which order each makes its calls, what each write adds, and that each can go on |
| EndToEnd.dfy | the server on the device |
| DeviceEchoes.dfy | what its connections echo from the device while others write |
| DeviceOutcomes.dfy | what becomes of each of them, from the answers of its calls, and that each can go on |
| DeviceProtocol.dfy | in which order each makes its calls |

Code that updates structs or loops is a class or a method proved against a
value-level function, and the promises are lemmas about that function. Code
that several threads run at once is a transition system whose steps are the
points where the scheduler, the allocator, a fault or the network can
intervene; the theorems quantify over every list of steps. The steps of the
connection threads are built from the same `Conn` functions that the buffer
methods are proved against, and those of the driver from the same
`Dev.Installed` and `Chunk` that specify the install and the read loop. What a
transition system records (results, echoes, received bytes, accepted
descriptors, the order of locks) is in turn proved to be what the list of steps
says, so that the theorems do not rest on the books it keeps of itself.

## The main results

- Device: `AesdDev.Write`, `AesdDev.Read`, `InstalledIsWrite`, `RunKeepsNewest`,
  `Linearizable`, `HeapIsOwned`, `RingKeepsNewest`, `ResultsFollowAnswers`,
  `CallCanSucceed`, `LockIsReleased`; a reader's
  view over commits: `ReadersSurviveUnlessFull`, `ReaderSurvives`.
- Offset search: `FindEntryOffsetForFpos` with `LocateSound`, `LocateComplete`
  and `LocateMonotone`: an order-preserving bijection, for every rotation.
- Connection thread: `MainLoopThread`, with termination, conservation, framing,
  the signal and the failures in one contract.
- Shared file: `AtomicEcho`, `EchoPerPacket`, `EchoesGrow`, `FaithfulMerge`,
  `MergePerConnection`, `FramingPerConnection`, `BytesAreConserved`,
  `OutcomeFollowsAnswers`, `NoEchoAfterFailure`, `CallsInOrder`,
  `EveryWriteCounts`, `PacketCanBeEchoed`, `MutexIsReleased`.
- Thread list and main loop: `JoinThreads`, `NoAcceptAfterSignal`,
  `EveryOneAccountedFor`, `CleanDrain`, `DrainEnds`, `AcceptIsReached`.
- Composition: `ServeOneClient`, `RingHoldsNewestPackets`, `PacketsPerConnection`,
  `EchoWithoutEviction`, `EchoRunsToItsEnd`, `ClosesOnlyOnFailure`,
  `ConnectionGoesOn`.

## What is assumed

- Sizes, counts and file positions are unbounded, and positions are not
  negative. The capacity of the ring is a parameter from 1 to 255, the largest
  whose offsets fit a `uint8_t`; only `ServeOneClient` fixes it to 10.
- `recv` answers an error, 0, or 1 to 1024 bytes; `send` an error or at least
  one byte; `read` returns no bytes only at the end of the file. Taking and
  giving back a mutex works (the driver's interruptible lock may be refused).
- Sending to a client that has gone answers -1. The server installs handlers
  for SIGTERM and SIGINT only and calls `send` without flags
  (server/aesdsocket.c:397-407, 605), so in the default setting such a send
  raises SIGPIPE, which ends the process: the failure exits of `sending_data`
  and the clean drain hold where that signal is ignored or blocked.
- Nobody else touches the file or the device.
- What the environment decides is an argument or a nondeterministic choice:
  lock refusals, allocator answers, accessible user memory, the answers of
  `recv`, `send`, `read`, `write`, `open` and `close`, the moment of a signal,
  and which threads a join finds ended.
- A write of length zero with nothing pending, when lock and allocation
  succeed, reads the byte before its buffer (aesd-char-driver/main.c:169).
  `AesdDev.Write` excludes exactly that call. `LastByteInBounds` says when the
  index is inside, for all inputs, and `EmptyWriteStepsOutside` gives the case.

The bodies of `aesd_read`, `aesd_write`, `sending_data` and `main_loop_thread`
are split into several methods, each naming the lines it stands for.

## Model

| member | source | states |
|---|---|---|
| CircularBuffer.AesdCircularBuffer.constructor | aesd-char-driver/aesd-circular-buffer.c:172-175 | initialising gives the empty ring of the chosen capacity |
| CircularBuffer.EmptyRingHoldsNothing | aesd-char-driver/aesd-circular-buffer.c:172-175 | the initialised ring is in order and no entry is in use |
| CircularBuffer.AesdCircularBuffer.AddEntry | aesd-char-driver/aesd-circular-buffer.c:90-135 | the in-place update is exactly the value-level add, and the pointer handed back is the one it overwrites |
| CircularBuffer.AddedKeepsNewest | aesd-char-driver/aesd-circular-buffer.c:90-135 | for every rotation, adding keeps exactly the newest capacity-many entries in order; the ring is flagged full exactly when all slots are used; the pointer handed back belongs to the oldest entry, and only a full ring hands one back |
| CircularBuffer.AesdCircularBuffer.FindEntryOffsetForFpos | aesd-char-driver/aesd-circular-buffer.c:48-81 | for every rotation and fill, the scan over the physical slots ends at the slot that holds the logical entry the reference search finds, at the same byte, and finds nothing exactly when that finds nothing |
| CircularBuffer.LocateSound | aesd-char-driver/aesd-circular-buffer.c:51-80 | an offset is located exactly when it is below the total size, and the entry's prefix sum plus the byte index gives the offset back |
| CircularBuffer.LocateComplete | aesd-char-driver/aesd-circular-buffer.c:51-80 | searching at prefix sum of k plus j, with j inside entry k, returns entry k and byte j |
| CircularBuffer.LocateMonotone | aesd-char-driver/aesd-circular-buffer.c:51-80 | larger offsets are found at lexicographically larger (entry, byte) pairs |
| CircularBuffer.UnusedSlotsAreEmpty | aesd-char-driver/aesd-circular-buffer.c:53-78 | scanning the unused slots of a partly filled ring adds no bytes to the total |
| CircularBuffer.AesdCircularBuffer.RemoveEntry | aesd-char-driver/aesd-circular-buffer.c:137-167 | the in-place removal is the value-level one, with the test of the `empty` flag as it stands in the code |
| CircularBuffer.RemovalFindsNothing | aesd-char-driver/aesd-circular-buffer.c:142-145 | on every ring in order a removal answers NULL and changes nothing |
| DeviceSpec.RunKeepsNewest | aesd-char-driver/main.c:105-187 | after any attempts, failed ones anywhere, the device holds the newest strings of the history that never evicts and never sees the failed ones |
| DeviceSpec.HistoryConservesBytes | aesd-char-driver/main.c:141-181 | committed strings followed by the pending one are exactly the accepted bytes in order; each committed string ends in a newline and the pending one does not |
| DeviceSpec.WholeLinesAreEntries | aesd-char-driver/main.c:166-181 | when every write is a whole line, entries are writes, one to one, and nothing is pending |
| DeviceSpec.ReadsFollowContents | aesd-char-driver/main.c:58-96 | while commits evict nothing, what successive reads delivered is a prefix of the current contents, which only grow |
| DeviceSpec.CommitKeepsReader | aesd-char-driver/main.c:166-181 | for every device and every bytes a reader has got from it: they stay a prefix of the contents over every next commit if and only if a slot is free, or they would be a prefix of what is left without the oldest string |
| DeviceSpec.ContentsSurviveUnlessFull | aesd-char-driver/aesd-circular-buffer.c:93-96 | with whole lines and nothing pending, the contents survive every next line if and only if a slot is free |
| DeviceSpec.ReaderSurvives | aesd-char-driver/main.c:58-96 | the same for a reader in the middle of any run of reads and non-evicting writes: exactly when its bytes stay a prefix whatever is committed next |
| DeviceSpec.EvictionMixesLines | aesd-char-driver/main.c:58-96 | on a fresh device of any capacity there is a run in which a reader gets a line nobody wrote, because an eviction falls between its two reads |
| DeviceSpec.ReadsCompose | aesd-char-driver/main.c:58-96 | any sequence of read sizes from position 0 delivers what one read of their sum delivers |
| CharDevice.AesdDev.constructor | aesd-char-driver/main.c:214-222 | the initialised device is in order, owns no allocation and means the fresh device |
| CharDevice.FreshDevIsFresh | aesd-char-driver/main.c:214-222 | nothing allocated, nothing pending, nothing committed |
| CharDevice.AesdDev.GetLock | aesd-char-driver/main.c:271-280 | the lock is held exactly when 0 is returned |
| CharDevice.AesdDev.ReleaseLock | aesd-char-driver/main.c:282-286 | only a held lock is given back, and then it is free |
| CharDevice.AesdDev.Kmalloc | aesd-char-driver/main.c:122-130 | a fresh buffer of the asked size with arbitrary bytes, or nothing changes |
| CharDevice.AesdDev.Kfree | aesd-char-driver/main.c:157-180 | only a live buffer is freed, and exactly that one |
| CharDevice.AesdDev.Store | aesd-char-driver/main.c:141-147 | stores stay inside a live buffer and leave its other bytes and all other buffers alone |
| CharDevice.AesdDev.Gather | aesd-char-driver/main.c:140-148 | the new buffer holds the pending bytes and then the caller's, unless the copy faults; no other buffer changes |
| CharDevice.AesdDev.Collect | aesd-char-driver/main.c:122-154 | success keeps the lock and adds one buffer with the gathered bytes; either failure has given the lock back and leaves the heap as it was |
| CharDevice.AesdDev.Install | aesd-char-driver/main.c:156-181 | the in-place replacement and commit are the value-level install, with every free on a live buffer |
| CharDevice.AesdDev.Write | aesd-char-driver/main.c:105-187 | the errno for each failure in the order they are met; a failed call changes nothing at all; a successful one is the specified write; the lock is free afterwards and the heap holds exactly the buffers in use |
| CharDevice.InstalledIsWrite | aesd-char-driver/main.c:156-181 | installing the gathered buffer is the specified append-and-commit, the superseded and the evicted buffer are live when freed, and ownership is exact again |
| CharDevice.GatheredIsWrite | aesd-char-driver/main.c:122-181 | allocating, gathering and installing together are the specified write and leave no buffer without an owner |
| CharDevice.Superseded | aesd-char-driver/main.c:156-166 | replacing the pending buffer frees only it and leaves the committed strings with the gathered one behind them |
| CharDevice.Evicted | aesd-char-driver/main.c:172-180 | dropping the oldest of one entry too many keeps ownership exact and the newest strings unchanged |
| CharDevice.FreeOne | aesd-char-driver/main.c:156-180 | freeing one owner's buffer leaves every other owner its own buffer and bytes |
| CharDevice.LastByteInBounds | aesd-char-driver/main.c:166-169 | the index of the last gathered byte is inside the buffer if and only if the count is positive or something is pending |
| CharDevice.EmptyWriteStepsOutside | aesd-char-driver/main.c:122-169 | on a fresh device, after a zero-length write has gathered nothing, the index that the install reads is outside the new buffer |
| CharDevice.CleanupLeavesEntries | aesd-char-driver/main.c:234-268 | the drain loop's first removal always answers NULL, so that after cleanup exactly the committed strings' buffers are still allocated, with their bytes, while the ring is the initial one and nothing is pending |
| CharDevice.CleanupIsCompleteIfEmpty | aesd-char-driver/main.c:234-268 | cleanup leaves nothing allocated if and only if the ring is empty |
| CharDevice.CleanupLeaksOneLine | aesd-char-driver/main.c:234-268 | after one committed line on a fresh device, cleanup leaves that line's buffer allocated |
| CharDevice.TextAt | aesd-char-driver/main.c:60-69 | the located byte and the rest of its entry are what comes next in the concatenation; nothing is located exactly at or past its end |
| CharDevice.ChunkIsSlice | aesd-char-driver/main.c:60-83 | on a device in order the found entry's buffer is live, the byte is inside it, and the copy's source is the device's text at that offset |
| CharDevice.ChunkFollowsText | aesd-char-driver/main.c:60-92 | a pass always finds live bytes in bounds, copies a prefix of the remaining text, at most what is wanted, and at least a byte unless the text is over |
| CharDevice.AesdDev.NextChunk | aesd-char-driver/main.c:60-80 | the pass in place: a prefix of the remaining text, empty exactly at its end |
| CharDevice.AesdDev.CopyOut | aesd-char-driver/main.c:58-93 | the loop ends and copies the slice of the text, or all of it that the user buffer can take when it faults |
| CharDevice.AesdDev.Read | aesd-char-driver/main.c:37-103 | returns and copies exactly the slice of the live entries' concatenation and advances the position by it; with a refused lock or a fault the position stays; bytes of the user buffer outside the copy stay; the lock is free afterwards |
| DeviceConcurrency.Linearizable | aesd-char-driver/main.c:49-187 | for every interleaving at lock, allocation, each user copy, commit, unlock and late free, the device means what the calls mean one at a time in lock order, and every call returns what it returns there; a fault is returned only by a call with bytes to copy |
| DeviceConcurrency.HeapIsOwned | aesd-char-driver/main.c:122-181 | over every interleaving nothing dead is freed or accessed, no buffer has two owners, none is lost, and each buffer in flight belongs to the one thread that still works on it |
| DeviceConcurrency.QuietMeansReleased | aesd-char-driver/main.c:49-186 | once all threads are outside, the lock is free, every call that got it has taken effect and has returned that result, and only the ring's and the pending buffer are allocated |
| DeviceConcurrency.RunForgetsNone | aesd-char-driver/main.c:49-187 | at every point of every run, a call that has taken effect has returned or its own thread is still on the way out with its result |
| DeviceConcurrency.OnwardIsEnabled | aesd-char-driver/main.c:49-187 | the lock holder is never stuck |
| DeviceConcurrency.HolderAdvances | aesd-char-driver/main.c:49-187 | each step of the lock holder, whatever fails in it, releases the lock or lowers a bound on its steps to the release, and no other thread's step touches lock or holder |
| DeviceConcurrency.LockIsReleased | aesd-char-driver/main.c:49-187 | from every point of every run the holder alone can give the lock back within that bound |
| DeviceConcurrency.ReadersSurviveUnlessFull | aesd-char-driver/aesd-circular-buffer.c:93-96 | at every point of every run with nothing pending, the contents survive every next line if and only if the ring's `full` flag is false |
| DeviceConcurrency.ReplayIsRun | aesd-char-driver/main.c:105-187 | the one-at-a-time replay, reads left out, is the fold over write attempts |
| DeviceConcurrency.RingKeepsNewest | aesd-char-driver/main.c:105-187 | over every interleaving the ring holds the newest committed strings of the unbounded history in lock order, and pending is that history's |
| DeviceConcurrency.StepInv | aesd-char-driver/main.c:49-187 | every step of every thread keeps ownership, linearization and each thread's claim |
| DeviceAnswers.RunIsTraced | aesd-char-driver/main.c:49-187 | every run gives the calls the results that a fold over its steps gives them, a fold that knows only the committed strings and no lock, heap or ring |
| DeviceAnswers.ResultsFollowAnswers | aesd-char-driver/main.c:83-89 | in every interleaving each call is decided by a step of its own thread under its own lock; it is out of memory if and only if its own allocation failed, and a fault if and only if one of its own user copies left bytes over |
| DeviceAnswers.AllSucceed | aesd-char-driver/main.c:132-154 | all calls of a run succeed if and only if no allocation failed and no user copy left bytes over |
| DeviceAnswers.CallCanSucceed | aesd-char-driver/main.c:49-187 | whenever the lock is free, a thread outside can make any call but an empty write with nothing pending, and finish it by its own steps with nothing failing |
| DeviceAnswers.EveryAnswerIsTaken | aesd-char-driver/main.c:122-154 | whatever the allocator and the user copies answer the lock holder, its call goes on with it |
| DeviceAnswers.RefusedLockChangesNothing | aesd-char-driver/main.c:114-120 | a refused lock may come at any time and changes nothing |
| DeviceAnswers.OrderIsLocks | aesd-char-driver/main.c:114-120 | the order in which calls take effect is that of the run's lock steps |
| Framing.SplitSound | server/aesdsocket.c:518-561 | the split loses and reorders no byte, and yields pieces with one newline, at their end, and a rest without any |
| Framing.PacketsEndInTen | server/aesdsocket.h:42 | a packet is a string with byte 10 at its end and nowhere else |
| Framing.SplitAfter | server/aesdsocket.c:518-561 | leading packets split off unchanged whatever follows |
| Framing.SplitUnique | server/aesdsocket.c:518-561 | any cut into packets and an unfinished rest is the newline split, so the chunks cannot matter |
| Connection.ReceivedKeeps | server/aesdsocket.c:480-516 | a receive keeps the state's invariant, gives room for all held bytes, and loses no byte it held |
| Connection.ProcessedKeeps | server/aesdsocket.c:518-561 | processing keeps the invariant of the state it enters, in particular one newline, at the end, when sending; no byte is lost or reordered; the temp buffer shrinks |
| Connection.RepliedKeeps | server/aesdsocket.c:587-647 | after the reply the invariant holds again, and the packet and what is left are what was held |
| Connection.CapacityStaysClose | server/aesdsocket.c:500-511 | one receive adds at most one growth step, and the capacity stays below the largest amount held at a receive plus 2048 |
| Connection.Realloc | server/aesdsocket.c:504-510 | a failed realloc gives nothing, a successful one a new block with the old contents |
| Connection.ThreadBuffers.constructor | server/aesdsocket.c:158-166 | the thread starts waiting, with an empty main buffer and a full-size temp buffer |
| Connection.ThreadBuffers.WaitingForData | server/aesdsocket.c:480-516 | the method in place, with its growth loop, is the value-level receive for every answer and realloc failure |
| Connection.ThreadBuffers.TakeFromTemp | server/aesdsocket.c:536-553 | memcpy and the overlapping memmove stay in bounds, and the bytes moved and kept are the right ones |
| Connection.ThreadBuffers.ProcessReceivedData | server/aesdsocket.c:518-561 | the method in place is the value-level processing, which cuts at the first newline |
| DataFile.RegularKeepsAll | server/aesdsocket.c:680-691 | a regular file opened for appending grows by every packet |
| DataFile.DeviceKeepsNewest | aesd-char-driver/main.c:166-181 | a fresh device keeps the newest packets, one to an entry, nothing pending |
| DataFile.Os.GetFileMutex | server/aesdsocket.c:652-664 | the mutex is only taken when this thread does not hold it |
| DataFile.Os.ReleaseFileMutex | server/aesdsocket.c:666-678 | the mutex is only given back when this thread holds it |
| DataFile.Os.Open | server/aesdsocket.c:680-691 | on success the file is open at its start, on failure it is not |
| DataFile.Os.Write | server/aesdsocket.c:768 | a full write is the file's append; a short one, on a regular file only, appends a part; an error leaves the file as it was |
| DataFile.Os.Read | server/aesdsocket.c:785-802 | the bytes are what comes next in the whole file, none exactly at its end, and the offset moves by them |
| DataFile.Os.Send | server/aesdsocket.c:605 | what is counted as sent is what reached the client |
| ServerThread.WriteToFile | server/aesdsocket.c:765-783 | success is exactly a full append; anything else is -1 and leaves the file untouched or with a proper prefix |
| ServerThread.SendAll | server/aesdsocket.c:602-614 | partial sends put the buffer through completely and in order, or fail with a prefix sent |
| ServerThread.EchoChunk | server/aesdsocket.c:598-614 | a pass sends what comes next in the file, and an empty pass means its end |
| ServerThread.Echo | server/aesdsocket.c:593-623 | the loop ends and has sent the whole file, or fails with a prefix of it sent |
| ServerThread.AppendPacket | server/aesdsocket.c:565-585 | the packet is appended as a whole with file and mutex held, or both are given up |
| ServerThread.EchoAndClose | server/aesdsocket.c:590-636 | every exit has closed the file and given the mutex back; success has sent the whole file |
| ServerThread.WriteAndEcho | server/aesdsocket.c:565-636 | the receive buffer is reset only once the packet is in the file; every exit closes the file and frees the mutex; the file is left in one of three stated conditions, with at most a part of the echo sent after a failure |
| ServerThread.SendingData | server/aesdsocket.c:563-650 | 0 means the packet was appended whole, exactly the whole file was sent after it, the buffers are as after a reply and no system call failed; -1 leaves the file in one of three stated conditions and has sent at most a part of the echo; the mutex is free and the file closed on every exit |
| ServerThread.WriteTimeStamp | server/aesdsocket.c:110-148 | 0 means the line was appended whole; every exit closes the file and frees the mutex; a failure leaves at most the line or a part of it |
| ServerThread.EchoesSnoc | server/aesdsocket.c:587-615 | each further packet adds one echo, of the file right after it, and changes no earlier one |
| ServerThread.SendingPass | server/aesdsocket.c:190-196 | without a failure the packet moves from the buffers to the file and its echo to the client; a failed sending_data closes the connection and has handed over nothing else |
| ServerThread.ReceivingPass | server/aesdsocket.c:176-189 | a receive or processing pass in place is the value-level one, and an error of recv or realloc closes the connection |
| ServerThread.Pass | server/aesdsocket.c:168-201 | a pass on an open connection is the value-level one for its state, or the sending_data in it failed and the connection is closed |
| ServerThread.AfterFine | server/aesdsocket.c:168-201 | after any number of passes every received byte is in a packet, in the buffers or still to come, the buffers are as their state asks, and the connection has closed by itself only at the end of the stream or after a failed realloc |
| ServerThread.AfterEchoed | server/aesdsocket.c:190-196 | after any number of passes the file holds every packet replied to and each was answered with the whole file as it then was |
| ServerThread.OnePassAdvances | server/aesdsocket.c:168-201 | each pass takes an answer of recv, leaves fewer new bytes, or goes on to a state of lower rank |
| ServerThread.Loop | server/aesdsocket.c:168-201 | the loop ends; without a failed call it has made exactly the passes up to and including the one in which the signal is first seen, or those until the connection closed |
| ServerThread.MainLoopThread | server/aesdsocket.c:152-207 | for every script of receive answers, failures and signal the loop ends; without failures it has made exactly the passes up to the signal, or to the close, and file and client have exactly the packets of those passes and their echoes; with one, exactly the passes before it, and at most the packet of the failing pass and a part of its echo besides; without signal and failures the packets are the newline split of the whole stream, whatever the chunks |
| ThreadList.LinkedListHead.constructor | server/queue.h:320-322 | an initialised list is empty |
| ThreadList.LinkedListHead.IsEmpty | server/queue.h:288 | the null test tells exactly whether any item is on the list |
| ThreadList.LinkedListHead.InsertHead | server/queue.h:329-332 | the new item goes first, the others keep their order |
| ThreadList.LinkedListHead.Next | server/queue.h:334 | links are only followed from items not freed |
| ThreadList.LinkedListHead.Free | server/aesdsocket.c:278-288 | only an item whose blocks are still allocated is freed |
| ThreadList.LinkedListHead.Previous | server/queue.h:341-343 | the search ends, without leaving the list, at the item before |
| ThreadList.LinkedListHead.Remove | server/queue.h:336-359 | exactly this item leaves the list, the others keep their order, the links stay acyclic and null-terminated |
| ThreadList.LinkedListHead.Visit | server/aesdsocket.c:262-290 | an ended item is closed, removed and freed once, a running one stays, and the traversal goes on at the right item although the current one may be gone |
| ThreadList.LinkedListHead.JoinThreads | server/aesdsocket.c:255-293 | for any list and any set of ended threads: the running ones stay in order, every ended one is freed with its data once and its descriptor closed once, in list order |
| ThreadList.SplitIsPermutation | server/aesdsocket.c:262-290 | no item is lost or doubled between those that stay and those that go |
| ThreadList.PruneStep | server/aesdsocket.c:262-290 | the item at the walk's place is the next one of the original list, whatever was removed before it |
| MainLoop.EveryOneAccountedFor | server/aesdsocket.c:48-89 | at every point of every run each descriptor that an accept step handed out is closed, on the list or waiting for its thread, once; each thread that was created is joined or on the list, once; and threads are created for the descriptors in the order of the accepts |
| MainLoop.RunRecords | server/aesdsocket.c:461-476 | what the loop counts as accepted, created, caught and ended is what the run's steps say |
| MainLoop.OnlyEndedAreJoined | server/aesdsocket.c:264-290 | a join only ever takes threads that have ended since they were created, and leaves the others in order |
| MainLoop.JoinBalances | server/aesdsocket.c:255-293 | joining moves descriptors and threads without losing or doubling any |
| MainLoop.NoAcceptAfterSignal | server/aesdsocket.c:78-82 | once the signal has come only an accept already under way can succeed, and none once a test of the loop has seen it |
| MainLoop.CleanDrain | server/aesdsocket.c:48-89 | when the loop is out the signal has come, the list is empty, no accepted client waits, every descriptor that an accept step handed out had its thread and was closed exactly once, and every created thread was joined exactly once |
| MainLoop.DrainEnds | server/aesdsocket.c:48-89 | from every reachable state with the signal caught, no client waiting for a thread and all listed threads ended, the loop by itself is out within seven steps |
| MainLoop.AcceptIsReached | server/aesdsocket.c:67-83 | until the signal comes, and with no client waiting for a thread, the loop by itself is in accept within four steps |
| MainLoop.ClientGetsThread | server/aesdsocket.c:84-88 | a client accepted there gets a thread of its own next, first on the list |
| MainLoop.EnvironmentIsFree | server/aesdsocket.c:48-89 | the signal may come at any point, any listed thread may end, a join may find any of those that have, and accept may answer anything |
| ServerConcurrency.StepInv | server/aesdsocket.c:563-650 | every step of every thread and of the timestamp writer keeps the invariant of the file, the mutex and each connection |
| ServerConcurrency.AtomicEcho | server/aesdsocket.c:563-650 | a sending_data that returned 0 has sent exactly the file as it was in the run right after the step that wrote its own packet, and so ends with that packet |
| ServerConcurrency.EchoPerPacket | server/aesdsocket.c:563-650 | a connection's j-th echo ends with the j-th packet of the newline split of what it received, and when it waits for data it has had an echo for every packet |
| ServerConcurrency.WrittenOnce | server/aesdsocket.c:765-783 | each piece of the file comes from a write step of the run, by its owner; the pieces before it were there already and later steps only add behind it |
| ServerConcurrency.HolderStepIsEnabled | server/aesdsocket.c:563-650 | the holder of the mutex, thread or timestamp writer, always has a step that does not fail |
| ServerConcurrency.HolderAdvances | server/aesdsocket.c:563-650 | each step of the holder, whatever fails in it, releases the mutex or lowers a bound from the file's size on its steps to the release, and no other step touches file, mutex or holder |
| ServerConcurrency.MutexIsReleased | server/aesdsocket.c:563-650 | from every point of every run the holder alone can give the mutex back within that bound |
| ServerConcurrency.EchoesGrow | server/aesdsocket.c:563-650 | a connection's successive echoes are strictly growing prefixes of one another |
| ServerConcurrency.FaithfulMerge | server/aesdsocket.c:93-149 | on every run the file is its first content and then whole packets and lines, or after a short write a part of one |
| ServerConcurrency.MergePerConnection | server/aesdsocket.c:563-585 | the file restricted to a connection is a prefix, in order, of the newline split of what it received; a short write is part of the very next packet, and after it the connection writes nothing and can only close |
| ServerConcurrency.FramingPerConnection | server/aesdsocket.c:480-561 | in any interleaving, a connection that waits for data has written exactly the packets of the newline split of its stream and holds exactly the rest |
| ServerConcurrency.BytesAreConserved | server/aesdsocket.c:498-588 | packets written, main buffer and temp buffer are exactly the bytes received; the capacity is a multiple of 1024 and its bound holds over the run; an open connection meets its state's invariant |
| ServerAnswers.OutcomeFollowsAnswers | server/aesdsocket.c:480-650 | a connection fails if and only if one of its own steps failed (recv, a needed realloc, open, a write short of the packet, read, send, close) or it left on the signal; until then every unlock of its own ended a sending_data that returned 0, with one echo; the bytes of its echoes are those that its sends took; what it counts as received is what recv delivered |
| ServerAnswers.NoEchoAfterFailure | server/aesdsocket.c:192-195 | after a failed step the connection stays failed for the rest of the run and has no further echo |
| ServerAnswers.CapacityFollowsReceives | server/aesdsocket.c:500-511 | over a whole run the capacity is a multiple of 1024 and less than 2048 above the largest main buffer at any receive step |
| ServerProtocol.CallsInOrder | server/aesdsocket.c:563-650 | in every run each connection makes its calls in the source's order, with all exits, and reads at most 1023 bytes at a time |
| ServerProtocol.TimerInOrder | server/aesdsocket.c:110-148 | so does the timestamp writer |
| ServerProtocol.EveryWriteCounts | server/aesdsocket.c:765-783 | each write step adds to the file exactly as much as it reports of the very next packet of its connection's split, or of the line the timestamp writer came with; no other step touches the file |
| ServerProtocol.OutsideGoesOn | server/aesdsocket.c:168-201 | nothing but the mutex keeps a connection from its next call, whatever recv answers |
| ServerProtocol.PacketCanBeEchoed | server/aesdsocket.c:563-650 | a connection with a packet that finds the mutex free can write and echo it by its own steps, and then has one echo more |
| ServerProtocol.EveryAnswerIsTaken | server/aesdsocket.c:563-650 | whatever open, write, read, send and close answer, the thread goes on with it |
| ServerProtocol.TimerGoesOn | server/aesdsocket.c:110-148 | nothing but the mutex keeps the timestamp writer from its next call, whatever open and write answer |
| EndToEnd.DeviceEcho | server/aesdsocket.c:593-615 | on a fresh device the i-th echo is the concatenation of the newest packets, at most as many as slots |
| EndToEnd.RegularEcho | server/aesdsocket.c:593-615 | on a regular file the i-th echo is everything so far |
| EndToEnd.NewestIsEchoed | server/aesdsocket.c:593-615 | all echoes of a connection at once, and what is left in the device |
| EndToEnd.ServeOneClient | server/aesdsocket.h:30-33 | initialised device and one connection: without failures, whatever the chunks, the client gets for each packet of the split the newest ten so far, and the device ends with the newest ten |
| EndToEnd.ServerRuns | server/aesdsocket.h:30-33 | every run of the unlocked server is inside the driver one of the driver's runs, and every write it makes is exactly one packet |
| EndToEnd.RingHoldsNewestPackets | aesd-char-driver/main.c:166-181 | with any number of unlocked connections, at every step the ring holds the newest packets in lock order of their writes, one whole packet to an entry, nothing pending, and the heap is owned |
| EndToEnd.PacketsPerConnection | server/aesdsocket.c:518-585 | each connection's packets in the device are whole, in order, and the first of its stream's split |
| DeviceEchoes.EchoFollows | aesd-char-driver/main.c:58-96 | over every history of calls, while nothing is evicted, what an echo's reads returned is a prefix of what the device shows, and at its empty read all of it |
| DeviceEchoes.RunEchoes | server/aesdsocket.c:590-615 | in every run the reads of each connection's echo follow each other from position 0, after its own write |
| DeviceEchoes.EchoWithoutEviction | server/aesdsocket.c:593-615 | with any number of unlocked connections, at every step: while no commit since a connection's own write evicted a packet, its echo so far is a prefix of the device's contents; and an echo that ended without one has read exactly the contents as they then stood, its own packet among them |
| DeviceEchoes.EchoRunsToItsEnd | server/aesdsocket.c:598-649 | a connection that is back outside and has not closed has had the empty read that ends the echo of its latest packet; between two reads it has not |
| DeviceOutcomes.ClosesOnlyOnFailure | server/aesdsocket.c:480-650 | a connection on the device closes, or is about to, if and only if one of its own moves failed, the driver's calls included; what it counts as received is what recv delivered |
| DeviceOutcomes.ConnectionGoesOn | server/aesdsocket.c:168-201 | at every point of every run each connection has a next move of its own, whatever recv answers, unless the driver's lock is taken by another call |
| DeviceOutcomes.EveryAnswerIsTaken | server/aesdsocket.c:563-650 | whatever the driver's environment answers a call, its connection goes on with it, and open, send, close and the lock may fail |
| DeviceProtocol.CallsInOrder | server/aesdsocket.c:563-650 | in every run each connection makes its calls, inside the driver too, in the source's order |

## Left out

- The body of the drain loop of `aesd_cleanup_module` after its first removal: it is never reached, because the removal answers NULL unless the `empty` flag is set (aesd-char-driver/aesd-circular-buffer.c:142) and nothing ever sets it (`CircularBuffer.RemovalFindsNothing`). The comment there says that all entries are freed; `CharDevice.CleanupLeavesEntries` states what the code leaves.
- Fairness: a lock or mutex that is held can always be released (`LockIsReleased`, `MutexIsReleased`), but nothing says that a waiting thread ever gets it.
- The `uint8_t`, `size_t` and `ssize_t` widths: offsets stay below the capacity of at most 255 and so fit; sizes and positions are unbounded.
- Failure paths of `create_thread` (server/aesdsocket.c:209-248), which keep the descriptor open; the main loop's model has every creation succeed.
- main_loop is a transition system on values, not a class: the signal may arrive between any two of its tests and steps, which a sequential method cannot say. Its calls to `join_threads` and `create_thread` are one step each.
- The threads' own end of a connection in the main loop is one step, at any time; that it comes is proved in `ServerThread.MainLoopThread`.
- Echoes of several clients on the device across an eviction: locking is compiled out and an echo takes several reads, so nothing is claimed of them but what `DeviceEchoes.EchoWithoutEviction` says; `DeviceSpec.EvictionMixesLines` shows what may happen to a reader.
- The bytes that partial sends of an echo on the device put out in a run with several clients: the model records what the echo has read.
- Failures of the pthread mutex and of `lseek`, which the server does not recover from either.
- A failed `malloc` of the thread's own buffers (server/aesdsocket.c:158-164), which the source does not test, and `thread_cleanup`.
- Memory that is not the driver's heap, such as the user's buffer, is a sequence of bytes; faults are where its accessible part ends.
- The ring holds pointers and the heap is a map from pointers to bytes, so a buffer's place in memory and alignment are not modelled.
- The ten-second schedule and the formatting of the timestamp line: any newline-terminated line may come at any time.
- Sockets, address formatting, daemon and fork, signal registration, logging, argument parsing, unlinking the file, and module and `cdev` registration: system calls without an algorithm.
- The LIST, STAILQ and TAILQ macros of server/queue.h, which the server does not use, and the finder-app, examples, scripts and assignments.
