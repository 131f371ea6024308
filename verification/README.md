# Verification of the snow event-loop server

A Dafny model of the multi-threaded epoll server in this repository, with proofs about the four stateful parts that
meet in the life of a connection:

- the **byte pipeline**: a compacting and growing buffer, scatter reads, the packet-splitting loop, and responses that
  leave by a direct or a queued write (`Buffers`, `Sockets`, `Framing`, `Connections`, `Pipeline`, `ConnectionObject`);
- the **timer queue**: an ordered set, an armed deadline, repeating timers, and callbacks that start and cancel timers
  while a batch fires (`Timers`, `TimerLaws`, `TimerCallbacks`, `TimerDepartures`, `TimerQueueObject`, `TimerFd`);
- the **poller table** that has to mirror the kernel's interest list (`Pollers`, `PollerObject`), and that all pollers
  share (`SharedTable`);
- the **accept baton** that any number of workers pass between their pollers (`Baton`), and the **life cycle** of a
  connection across list, pollers and timer queues of any number of workers (`Lifecycle`, `PollLists`, `Turns`,
  `ServerObject`).

The environment is an argument of every step: how often a call is interrupted, how many bytes `readv` delivers and
`write` takes, which errors come back, what `epoll_wait` reports, what the clock says, which worker moves next. Each
theorem is for all of them. Objects that the code updates in place are classes (`Buffer`, `TcpSocket`, `Connection`,
`TimerQueue`, `Poller`, `ServerState`); each method is proved to compute a function on values, and the laws are proved
about that function over whole runs. The worker threads are a transition system: in `Baton` its steps are single atomic
actions, in `PollLists` they are turns of `scheduler::run`, each a whole list of events that one worker collected before
it ran the first. In the life cycle every worker has a poller and a timer queue of its own, every connection a worker,
and all workers share the list of connections and the poller table.

`dafny verify dfyconfig.toml` checks everything (Dafny 4.11).

## Two variants

The repository is in the middle of a refactoring, and several committed lines do something other than what the code
around them relies on. Every definition such a line touches takes a `Variant`. `AsWritten` follows the committed lines;
`Repaired` follows them with the departures below put right. Nothing else differs. For each departure that
breaks a law there is a concrete input that shows it, an exact condition under which the committed code still meets the
law, or both. The laws over whole runs hold for every run of `Repaired`, and for the byte pipeline also for every
`AsWritten` run that stays off the departing branches (the `clean` flag). When a connection that ends is destroyed is a
parameter of its own, `Erasure`: `AtOnce`, in the connection's own handler, is committed; `AfterList`, behind the last
event of the turn, is the repair; `AfterBatch`, behind the timer batch, is in between and shows that less is not enough.

| committed line | what it does | what `Repaired` does | proved |
|---|---|---|---|
| net/buffer.cpp:63-65 | compaction resets the indices and moves no byte | moves the unread bytes to the front | `CompactionLosesBytes`, `EnsureKeepsContentsExactly`, `ScatterReadExactlyWhen`, `QueuedSendConservesExactlyWhen`, `CommittedFramingFails` |
| net/tcp_socket.cpp:56-57 | a result of -1 is stored unsigned and taken for a count, so the read index moves back by one | tests the signed result | `WriteConservesExactly`, `QueuedWriteConservesExactly`, `BlockedWriteRepeatsByte`, `SendDirectConserves` |
| net/connection.cpp:48-49 | the result of `read` is unsigned, so `ret < 0` is never true and read errors do not close | closes on errors other than EAGAIN | `ReadEndsExactlyWhen`, `CommittedReadDiffersExactlyOnErrors` |
| net/connection.cpp:35-45, 62-68 | write interest is never enabled; `handle_write` re-enables reading, for one report | writing is watched while bytes are queued, and no longer | `CommittedNeverWritable`, `CommittedQueueWaits`, `PartialWriteSilences`, `RunKeepsWatched`, `WritableEventsDrain` |
| net/connection.cpp:70-81, server.cpp:108-110 | a connection that times out is erased, with its timer, in the timer's own callback, and `reset` reads the timer afterwards | the erasure waits until the turn is over | `AtOnceFaults`, `TimedOutConnectionIsTouched`, `EntryFaultsExactlyWhen`, `RunsKeepInvExactlyWhen` |
| scheduler.cpp:45-50, net/connection.cpp:47-54 | all events are collected before the first runs, so one event can destroy the connection of a later one, whose handler then runs on freed memory | the erasure waits until the list is through, and a connection that has ended is passed over | `TimedOutClient`, `TimedOutConnectionIsTouched`, `LateEntryFaultsExactlyWhen`, `TurnFaultsExactlyWhen`, `RepairedTurnKeepsInv`, `RunsKeepInvExactlyWhen` |
| timer/timer_queue.h:25-32 | the set is ordered by address, although `cbegin()` is used as the earliest timer | orders by expiration, then address | `AddArmsMinimumExactlyWhen`, `CancelArmsMinimumExactlyWhen`, `TimeoutArmsMinimumExactlyWhen`, `RunArmedExactlyWhen`, `AddressOrderArmsLate`, `CancelArmsLate`, `TimeoutArmsLate` |
| timer/timer_queue.cpp:66 | the scan stops after one timer | stops at the first timer that has not expired | `ScanTakesAllExactlyWhen`, `BatchIsPartition` |
| timer/timer_queue.cpp:76-81 | repeaters go back into the set whatever their callback did to them | only those that still run and are not back already | `RestartAfterFiringFaults`, `ReinsertAllKeeps` |
| timer/timer_queue.cpp:79, 88-99 | `insert` does not tell the timer its new place, so `m_id` stays a dead iterator | tells it | `CancelAfterTimeoutFaultsExactlyWhen` |
| timer/timer.cpp:25-31 | `m_running` is cleared after the callback, also for repeaters, and not at all without a handler | a one-shot stops before its callback, a repeater keeps running; a timer that was cancelled or restarted since the batch was taken is skipped | `TimeoutOutcome`, `FlagsAgreeExactlyWhen`, `RunHealthyExactlyWhen`, `RunKeeps` |
| timer/timer.cpp:45-50 | a cancel during the timer's own batch erases through the iterator of an erased element | such a cancel only clears the flag | `TimeoutOutcome`, `SelfCancelFaults`, `CommittedQueueFaultsExactlyWhen`, `CancelKeeps` |
| timer/timer.cpp:18-23 | `start` does not set the expiration from the interval | a repeater's first expiration is one interval from now | `StartSchedules`, `NeverSetIsDueAtOnce` |
| timer/timer_fd.cpp:41-50 | takes the clock's count for microseconds whatever its tick, and splits it at 1000 | converts the count by its tick and splits it at a second | `CommittedIsExactExactlyWhen`, `RepairedIsExact` |
| timer/timer_fd.cpp:54-61 | the stored timeout callback is never called | calls it | `CommittedTimersNeverFire`, `RepairedRunsAreQueueRuns` |
| event/poller.hpp:53 | calls a getter with the callback, which does not compile | both variants read it as the setter | `HistoriesMirror` |
| event/poller.hpp:56 | assigns where it means to compare, so the mark is lost | compares | `CommittedHistories`, `CommittedMirrorsExactlyWhen` |
| event/poller.hpp:56-58 | even as a comparison it returns early for the mark the table has, although a report has disabled a one-shot descriptor in the kernel | tells the kernel again when the mark is one-shot | `ReportKeepsMirrorExactlyWhen`, `ReportedIsEnabledExactlyWhen`, `MirrorsExactlyWhen`, `ComparisonLeavesItDisabled`, `ListeningGoesOn` |
| event/poller.hpp:82 | lets fd 4096 through to a table of 4096 entries | rejects it | `CommittedFaults` |
| event/poller.hpp:90-105 | the mark that stays is computed the wrong way round and not stored | stores the old mark without the deleted bits, and gives the fd up when neither READ nor WRITE is left | `CommittedMirrorsExactlyWhen`, `DelKeepsMirror` |
| event/poller.hpp:142-143 | the table is static: what one worker's poller records hides the descriptor from the next worker's | the holder deletes before it hands over | `AddArmsExactlyWhen`, `HandOverWithoutReleaseIsLost`, `ListeningGoesOn` |
| server.cpp:112-120, net/acceptor.cpp:33-36 | a worker that comes round while it still holds an acceptor calls `try_lock` on a mutex it owns, which the C++ standard leaves undefined | skips an acceptor that is still armed in the worker's own poller | `OwnerTriesAgain`, `OwnerIsArmed`, `RunFaultsExactlyWhen` |
| event/poller.hpp:118-124 | passes the size of an empty vector, which `epoll_wait` rejects | passes room for the reports; returns 0 at the end, where the committed code returns nothing | `Poller.Poll` |

One law is false of code that has no departing line. Framing independence does not hold for every splitter the loop
accepts: `ResumableExactlyWhenStable` shows that it holds for exactly the prefix-stable ones, and the splitter of
samples/echo.cpp is not one of them (`EchoFramingShowsCuts`); `EchoEndToEnd` holds all the same.

## Model

| member | source | states |
|---|---|---|
| `Buffers.Reserved` | net/buffer.cpp:49-68 | Room for the request is there afterwards, as many bytes are unread as before, and they are the same bytes unless the committed code compacts with bytes unread. |
| `Buffers.Appended` | net/buffer.cpp:42-47 | Appending concatenates to the unread bytes, outside that one branch. |
| `Buffers.CompactionLosesBytes` | net/buffer.cpp:63-65 | A buffer whose unread byte 30 turns into 10 when room for two bytes is asked for. |
| `Buffers.EnsureKeepsContentsExactly` | net/buffer.cpp:49-68 | For given indices, the committed call keeps every possible content if and only if it does not compact or nothing is unread. |
| `Buffers.StepRefinesSequence` | net/buffer.cpp:42-68 | Append, consume and reserve act on the unread bytes as concatenation, dropping a prefix and identity. |
| `Buffers.RunRefinesSequence` | net/buffer.cpp:42-68 | Over any run of operations the buffer is a plain byte sequence: always in the repaired code, and on every run of the committed code that never compacts over unread bytes; read index, write index and size stay in order. |
| `Buffers.CleanExactlyWhenEveryContentKept` | net/buffer.cpp:49-68 | Over runs the guard is exact: a committed run never compacts over unread bytes if and only if at each of its steps every content of the buffer's shape would be kept. |
| `Buffers.GrowthStep` | net/buffer.cpp:51-65 | A buffer with room enough stays as it is, any other starts at the front again; it is reallocated if and only if the request does not fit beside the unread bytes, and then to the old write index plus the request, which is a growth and less than the unread bytes plus twice the request. |
| `Buffers.CapacityBound` | net/buffer.cpp:49-67 | Over any run, in both variants, capacity never shrinks and never passes the larger of the initial capacity and peak unread bytes plus twice the largest request. |
| `Buffers.Buffer.constructor` | net/buffer.cpp:9-15 | A new buffer is empty with the asked capacity. |
| `Buffers.Buffer.FromBytes` | net/buffer.cpp:17-24 | A buffer made from bytes holds exactly them, with no room left. |
| `Buffers.Buffer.ReadableBytes` | net/buffer.h:28-30 | The number of unread bytes. |
| `Buffers.Buffer.WriteableBytes` | net/buffer.h:32-34 | The room behind the write index. |
| `Buffers.Buffer.Peek` | net/buffer.h:36-42 | The memory the read index points at holds the unread bytes. |
| `Buffers.Buffer.IncreaseReadIndex` | net/buffer.h:52-55 | Only the read index moves; an unsigned -1 moves it back by one. |
| `Buffers.Buffer.IncreaseWriteIndex` | net/buffer.h:57-60 | The bytes already stored behind the write index become readable, and nothing else changes. |
| `Buffers.Buffer.CopyReadable` | net/buffer.cpp:59 | The unread bytes arrive at the front of the target unchanged, also when the target is the buffer's own array and the ranges overlap. |
| `Buffers.Buffer.EnsureWriteableBytes` | net/buffer.cpp:49-68 | The in-place code computes `Reserved` in its return, compaction and reallocation cases. |
| `Buffers.Buffer.Append` | net/buffer.cpp:42-47 | The in-place code computes `Appended`. |
| `Machine.SizeRoundTrip` | net/tcp_socket.cpp:56-58 | Storing a signed result unsigned and adding it to an index adds the signed value; the stored value is positive for every result but zero, negative ones included. |
| `Sockets.ScatterReadExact` | net/tcp_socket.cpp:19-51 | After a read the unread bytes are the old ones followed by the delivered ones in order, for every delivery up to the room plus the 65536-byte spill, also when appending the spill compacts or reallocates. |
| `Sockets.ReadOffersRoom` | net/tcp_socket.cpp:20-29 | The kernel is always offered at least 1500 bytes of the buffer and the 65536 of the spill array. |
| `Sockets.ReadReturnsCount` | net/tcp_socket.cpp:30-48 | A read returns the number of bytes it added, zero if and only if it met end of file, and an unsigned -1 on a failure. |
| `Sockets.ScatterReadExactlyWhen` | net/tcp_socket.cpp:19-51 | For given indices and delivery size, the committed read is exact for every content if and only if neither of its two compaction points is reached with bytes unread. |
| `Sockets.CorruptedReadShowsStaleByte` | net/tcp_socket.cpp:23-38 | When one of them is reached, a consumed byte reappears at the front of the unread bytes. |
| `Sockets.WriteConservesExactly` | net/tcp_socket.cpp:53-70 | Bytes sent followed by bytes left are the bytes that were there, if and only if no negative result is misread. |
| `Sockets.WriteReturnsCount` | net/tcp_socket.cpp:56-67 | A write returns the number of bytes it sent and took out of the buffer, or an unsigned -1, and then it sent none. |
| `Sockets.BlockedWriteRepeatsByte` | net/tcp_socket.cpp:56-59 | A full socket makes the committed code queue a sent byte again. |
| `Sockets.ClientsAppend` | net/tcp_socket.cpp:81-98 | The clients accepted over two stretches of answers are those of the first, then those of the second. |
| `Sockets.AcceptLoopCollects` | net/tcp_socket.cpp:81-98 | Against an endless stream of answers, the loop has collected exactly the clients given so far, in order, as long as EAGAIN has not come. |
| `Sockets.AcceptReturnsExactlyWhen` | net/tcp_socket.cpp:90-97 | The loop returns if and only if EAGAIN comes some time; an error that persists keeps it running for ever. |
| `Sockets.TcpSocket.Read` | net/tcp_socket.cpp:19-51 | The retry loop computes the read on values, over finitely many interrupts, logs exactly what the kernel delivered, and returns the count, 0 or an unsigned -1. |
| `Sockets.TcpSocket.TakeDelivery` | net/tcp_socket.cpp:33-39 | A delivery that overflows into the spill array ends up in the buffer in order. |
| `Sockets.TcpSocket.Write` | net/tcp_socket.cpp:53-70 | The retry loop computes the write on values, and the wire grows by exactly the bytes taken. |
| `Sockets.TcpSocket.Accept` | net/tcp_socket.cpp:81-98 | For answers that end in EAGAIN, the loop collects every accepted client once, in order, across interrupts and errors. |
| `Framing.GreedyConserves` | net/connection.cpp:56-59 | The packets cut off followed by the rest are the input. |
| `Framing.StableImpliesResumable` | net/connection.cpp:55-59 | With a prefix-stable splitter, cutting a stream as it arrives gives the packets and the rest of cutting it whole. |
| `Framing.ResumableExactlyWhenStable` | net/connection.cpp:55-59 | A bounded splitter frames independently of how reads cut the stream if and only if it is prefix-stable. |
| `Framing.EchoFramingShowsCuts` | samples/echo.cpp:23-27 | The echo splitter is bounded and not prefix-stable: [1] then [2] gives two packets, [1, 2] gives one. |
| `Connections.SendQueuedConserves` | net/connection.cpp:36-38 | A send behind queued bytes that neither misreads its result nor compacts the queue keeps wire followed by queue equal to all responses in order; a misread result always breaks it. |
| `Connections.SendDirectConserves` | net/connection.cpp:39-44 | A send that bypasses the empty queue keeps that law if and only if its result is not misread. |
| `Connections.SendConserves` | net/connection.cpp:35-45 | The same for either path: kept off the two departing branches, always broken by a misread result. |
| `Connections.SendOffersAll` | net/connection.cpp:35-45 | On either path a send offers the kernel all that waits, old bytes first; as many as the kernel takes are on the wire, and exactly the rest waits on. |
| `Connections.WriteOffersAll` | net/connection.cpp:62-63 | So does a writeable event. |
| `Connections.ReadClosesExactlyWhen` | net/connection.cpp:48-53 | A read closes an open connection if and only if it meets end of file or, repaired, an error other than EAGAIN; it is unregistered then, and nothing is dispatched, written or queued any more. |
| `Connections.RunClosesExactlyWhen` | net/connection.cpp:47-54 | Over every run, an open connection ends up closed if and only if some read made while it was open had such a result. |
| `Connections.DrainDispatches` | net/connection.cpp:55-59 | The dispatch loop cuts the unread bytes greedily, keeps exactly the rest, answers every packet in order, and conserves the output under any treatment of its writes. |
| `Connections.ReadStep` | net/connection.cpp:47-60 | One `handle_read` that stays off the departing branches loses no input and no output, and keeps the packets equal to the greedy cut of all bytes received. |
| `Connections.WriteStep` | net/connection.cpp:62-68 | One `handle_write` that does not misread its result conserves the output and touches neither input nor packets. |
| `Connections.StepKeepsWatched` | net/connection.cpp:21-68 | Every step keeps an open connection watched for reading, report after report, and for writing, repaired, exactly while bytes are queued, as committed never; so a writeable event never finds the queue empty. |
| `Connections.RunKeepsWatched` | net/connection.cpp:21-68 | The same over every run. |
| `Connections.CommittedNeverWritable` | net/connection.cpp:35-45 | No run of the committed code contains a writeable event. |
| `Connections.CommittedQueueWaits` | net/connection.cpp:35-45 | A committed run without a new response leaves the queue and the wire as they were: queued bytes move only with a later send. |
| `Connections.PartialWriteSilences` | net/connection.cpp:64-67 | A committed write that leaves bytes makes the registration one-shot: the next report disables the connection altogether. |
| `Connections.WritableEventsDrain` | net/connection.cpp:62-68 | Repaired, every writeable event whose write is taken moves at least one queued byte, and as long as any is left another such event is watched for. |
| `Connections.RepairedRunStaysClean` | net/connection.cpp:35-68 | No run of the repaired code takes a departing branch or writes with nothing to write. |
| `Connections.RunKeepsLaws` | net/connection.cpp:35-68 | Over any clean run of reads, sends and writes: wire followed by queue are all responses in send order, packets followed by unread bytes are all bytes received, and with a prefix-stable splitter the packets are the greedy cut. |
| `Pipeline.OutputIsFunctionOfInput` | net/connection.cpp:35-68 | With a prefix-stable splitter, what was written or queued is a function of the bytes received alone, under every chunking, short write, interrupt and blocked write. |
| `Pipeline.ChunkingIsInvisible` | net/connection.cpp:47-60 | Two runs that received the same bytes agree on packets, unread bytes and output, however reads and writes were cut. |
| `Pipeline.RepairedOutputIsFunctionOfInput` | net/connection.cpp:35-68 | The function of the input, for every legal run of the repaired code. |
| `Pipeline.EchoRunDrains` | samples/echo.cpp:13-27 | The echo server leaves nothing unread after any handler. |
| `Pipeline.EchoEndToEnd` | samples/echo.cpp:13-27 | After every handler of every clean run, wire followed by queue are exactly the bytes dispatched, and on an open connection the bytes received. |
| `Pipeline.RepairedEchoEndToEnd` | samples/echo.cpp:13-27 | The same for every legal run of the repaired echo server. |
| `Pipeline.CommittedEchoRepeatsByte` | samples/echo.cpp:13-27 | A client sends 1 2 3, 4, 5 and the committed echo server, after two short writes and one blocked write, has paid 1 2 and owes 2 3 4 5. |
| `Pipeline.CommittedFramingFails` | net/connection.cpp:47-60 | Reads of 3, 2, 2 and 1 bytes make the committed code dispatch the packet [3, 8], which the stream 1..8 does not contain, with a prefix-stable splitter. |
| `Pipeline.FourReads` | net/buffer.cpp:49-68 | The buffer through those reads: two reallocations, a plain read, and a compaction over an unread byte. |
| `Pipeline.QueuedSendConservesExactlyWhen` | net/connection.cpp:36-38 | For given indices, the committed send behind queued bytes keeps the output law for every content if and only if its result is not misread and the queue does not compact. |
| `Pipeline.QueuedWriteConservesExactly` | net/connection.cpp:62-63 | A write of queued bytes keeps the output law if and only if its result is not misread. |
| `ConnectionObject.Connection.constructor` | net/connection.cpp:11-14 | A new connection is open and empty, with two separate buffers. |
| `ConnectionObject.Connection.Send` | net/connection.cpp:35-45 | The in-place handler computes the send on values, on both paths. |
| `ConnectionObject.Connection.SendResponse` | session.h:28-33 | Bytes wrapped in a buffer of their own are sent whole. |
| `ConnectionObject.Connection.DispatchPackets` | net/connection.cpp:55-59 | The while loop computes the loop on values, and ends. |
| `ConnectionObject.Connection.Dispatch` | net/connection.cpp:56-59 | One packet is dispatched and answered, then exactly its bytes are consumed. |
| `ConnectionObject.Connection.HandleRead` | net/connection.cpp:47-60 | The in-place handler computes the read step; it closes and unregisters exactly on end of file and, repaired, on errors other than EAGAIN, and then handles nothing else. |
| `ConnectionObject.Connection.HandleWrite` | net/connection.cpp:62-68 | The in-place handler computes the write step, the registration behind a partial write included. |
| `ConnectionObject.Connection.HandleClose` | net/connection.cpp:77-81 | Closing changes the status and nothing else. |
| `Timers.InsertSorted` | timer/timer_queue.cpp:28 | Inserting a timer that is not in the set keeps the set ordered. |
| `Timers.EraseSorted` | timer/timer_queue.cpp:37-47 | Erasing takes exactly the one timer out and keeps the set ordered. |
| `TimerLaws.StartKeeps` | timer/timer.cpp:18-23 | Starting keeps the invariant, also from a callback in the middle of a batch. |
| `TimerLaws.StartTakesEffect` | timer/timer.cpp:18-23 | At any point of a batch: a timer that does not run is queued, a repeater for an interval from now and a one-shot for the expiration it was set to, and the history says so; one that runs, and every other timer, is left alone. |
| `TimerLaws.CancelKeeps` | timer/timer.cpp:45-50 | Cancelling keeps it, also for a timer of the batch that is firing. |
| `TimerLaws.CancelTakesEffect` | timer/timer.cpp:45-50 | At any point of a batch: the cancelled timer neither runs nor is queued afterwards, also if it was taken out to be fired; the history grows by exactly its cancel if it ran; every other timer is left alone. |
| `TimerLaws.RunKeeps` | timer/timer.cpp:25-31 | The next timer of a batch fires and runs its callback, unless an earlier callback cancelled or restarted it; any starts and cancels of the callback keep the invariant. |
| `TimerLaws.RunBatchKeeps` | timer/timer_queue.cpp:49-56 | A whole batch keeps the invariant, and each of its timers was fired or cancelled. |
| `TimerLaws.ReinsertAllKeeps` | timer/timer_queue.cpp:75-86 | Putting repeaters back leaves flag and set in agreement; a repeater that was cancelled meanwhile does not come back. |
| `TimerLaws.BatchIsPartition` | timer/timer_queue.cpp:59-73 | The batch is all and only the timers with expiration at or before now, a prefix of the ordered set. |
| `TimerLaws.TakeBatchKeeps` | timer/timer_queue.cpp:59-73 | The batch has no repetition, and what remains in the set is its exact complement, still ordered. |
| `TimerLaws.TimeoutKeeps` | timer/timer_queue.cpp:49-86 | After a timeout with arbitrary re-entrant callbacks: the invariant holds, the earliest expiration is armed, and every timer that was due has fired or was cancelled. |
| `TimerLaws.DoKeepsEarliest` | timer/timer_queue.cpp:21-47 | Adding and cancelling keep the armed deadline at the earliest expiration. |
| `TimerLaws.RunsFollowIdeal` | timer/timer_queue.cpp:21-99 | Over every run with re-entrant callbacks the history is one that a two-state automaton per timer allows (nothing fires before it is due, or twice, or when stopped), flag and set agree, and the armed deadline is the minimum. |
| `TimerLaws.StartsQuiet` | timer/timer.h:33-36 | Before any timer is started the invariant holds. |
| `TimerLaws.QuietMeans` | timer/timer.cpp:18-50 | At a quiescent state a timer runs if and only if it is queued, starting a queued one and cancelling another change nothing, and the armed deadline is no later than any expiration. |
| `TimerLaws.StartSchedules` | net/connection.cpp:27-28 | Starting a stopped repeater queues it for an interval from now, and the descriptor is armed for then or earlier. |
| `TimerLaws.OneShotFiresOncePerStart` | timer/timer.cpp:25-31 | In any allowed history a one-shot fires at most as often as it was started. |
| `TimerLaws.CancelledStaysQuiet` | timer/timer.cpp:45-50 | A cancelled timer does not fire, in the same batch or later, until it is started again. |
| `TimerLaws.RepeaterDueAfterInterval` | timer/timer.cpp:41-43 | A repeater left alone is next due exactly one interval after the batch it fired in, and does not fire before. |
| `TimerCallbacks.RunTakesEffect` | timer/timer.cpp:25-31 | The timer whose turn it is fires if and only if it still runs and is not back in the set; then its callback is called on the state with just that firing added. |
| `TimerCallbacks.CancelledInBatch` | timer/timer_queue.cpp:49-56 | A timer of the batch that the callback of an earlier one cancels, and that nothing starts again, does not fire in this timeout and does not return to the set. |
| `TimerCallbacks.DueFires` | timer/timer_queue.cpp:49-73 | A timer that is due and that no callback of the timeout cancels fires in it. |
| `TimerCallbacks.OnlyDueFire` | timer/timer_queue.cpp:59-73 | A timer that was not due when the batch was taken does not fire in this timeout, whatever is started meanwhile. |
| `TimerDepartures.ScanTakesAllExactlyWhen` | timer/timer_queue.cpp:59-73 | The committed scan takes every expired timer if and only if no timer behind the front has expired. |
| `TimerDepartures.AddArmsMinimumExactlyWhen` | timer/timer_queue.cpp:21-35 | The committed `add_timer` keeps the deadline at the minimum if and only if the set was empty, or the new timer expires no earlier than the front, or it becomes the front and is the earliest. |
| `TimerDepartures.AddressOrderArmsLate` | timer/timer_queue.h:25-32 | A timer expiring at 5 is added and the deadline stays at 10. |
| `TimerDepartures.CancelArmsMinimumExactlyWhen` | timer/timer_queue.cpp:37-47 | The committed `cancel` keeps the deadline at the minimum if and only if nothing is left, or the lowest address that takes over is the earliest, or, behind the front, another timer expires at the deadline too. |
| `TimerDepartures.CancelArmsLate` | timer/timer_queue.cpp:37-42 | With expirations 7, 10 and 8, cancelling the first arms for 10. |
| `TimerDepartures.TimeoutLeaves` | timer/timer_queue.cpp:49-86 | Which timers a committed timeout leaves queued, and when they expire, read off the state before it and the starts and cancels of its callback. |
| `TimerDepartures.TimeoutArmsMinimumExactlyWhen` | timer/timer_queue.cpp:83-85 | Whatever its callback starts and cancels, as long as it stays defined, a committed timeout ends armed for the minimum if and only if, of the timers it leaves behind, the one at the lowest address is the earliest; this can be told before the call. |
| `TimerDepartures.QuietTimeoutArmsMinimumExactlyWhen` | timer/timer_queue.cpp:75-86 | In particular, for a callback that leaves the queue alone: no timer may expire before the front that is left or the repeater that returns to the front. |
| `TimerDepartures.TimeoutArmsLate` | timer/timer_queue.cpp:83-85 | With expirations 5, 10 and 8, firing the first arms for 10. |
| `TimerDepartures.NeverSetIsDueAtOnce` | net/connection.cpp:27-28 | A connection's timer has an interval and no expiration; started by the committed code, alone in the set, it is due at the first timeout, whatever the interval. |
| `TimerDepartures.CallbackOutcome` | timer/timer.cpp:25-31 | Any starts and cancels of a committed callback fault if and only if one of the cancels is for the firing timer or for one that went back into the set before; until then they keep every other flag in agreement with the set. |
| `TimerDepartures.TimeoutOutcome` | timer/timer_queue.cpp:49-86 | A committed timeout with an arbitrary callback leaves defined behaviour if and only if its callback makes such a cancel; otherwise the fired timer runs exactly if it has no handler, is queued, behind a dead iterator, exactly if it repeats, and every other flag agrees. |
| `TimerDepartures.FlagsAgreeExactlyWhen` | timer/timer.cpp:25-31 | After a timeout that does not fault, whatever its callback did, the flag agrees with the set if and only if nothing fired, or the timer that fired has exactly one of a handler and an interval. |
| `TimerDepartures.CancelAfterTimeoutFaultsExactlyWhen` | timer/timer_queue.cpp:75-99 | After such a timeout a cancel erases through a dead iterator if and only if it is for the timer that fired and that timer has no handler, or for another timer that went back into the set before. |
| `TimerDepartures.RestartAfterFiringFaults` | timer/timer_queue.cpp:28-29 | Starting a queued timer whose flag was cleared fails the assertion on the insertion. |
| `TimerDepartures.SelfCancelFaults` | net/connection.cpp:70-75 | A callback that cancels its own timer makes the committed queue erase through a dead iterator, whatever else it does. |
| `TimerDepartures.RunHealthyExactlyWhen` | timer/timer_queue.cpp:21-99 | Under every interleaving of start, cancel, firing and repeat, the committed queue stays in defined behaviour with flags and set in agreement if and only if no cancel is for a timer that went back into the set, no callback cancels such a timer or its own, and every timer that fires has exactly one of a handler and an interval. |
| `TimerDepartures.RunArmedExactlyWhen` | timer/timer_queue.cpp:21-99 | Over every such run the armed deadline is the minimum throughout if and only if every addition, every cancel and every timeout meets its guard, each read off the state before it. |
| `TimerQueueObject.TimerQueue.AddTimer` | timer/timer_queue.cpp:21-35 | The in-place code computes the addition on values. |
| `TimerQueueObject.TimerQueue.CancelQueued` | timer/timer_queue.cpp:37-47 | The in-place code computes the removal on values. |
| `TimerQueueObject.TimerQueue.Start` | timer/timer.cpp:18-23 | The in-place code computes `start` on values. |
| `TimerQueueObject.TimerQueue.Cancel` | timer/timer.cpp:45-50 | The in-place code computes `cancel` on values. |
| `TimerQueueObject.TimerQueue.Run` | timer/timer.cpp:25-31 | The in-place code computes `run` on values, with the callback's effects. |
| `TimerQueueObject.TimerQueue.GetExpired` | timer/timer_queue.cpp:59-73 | The scan ends, returns the batch and leaves the rest. |
| `TimerQueueObject.TimerQueue.Reset` | timer/timer_queue.cpp:75-86 | The loop puts the batch's repeaters back and arms for the front. |
| `TimerQueueObject.TimerQueue.HandleTimeout` | timer/timer_queue.cpp:49-56 | Scan, callbacks and reset compute the timeout on values. |
| `TimerFd.RepairedIsExact` | timer/timer_fd.cpp:40-52 | For either clock tick the repaired timespec denotes exactly the larger of the remaining time and 100 microseconds. |
| `TimerFd.HowMuchTimeFromNow` | timer/timer_fd.cpp:40-52 | Nanoseconds are in [0, 10^9) and seconds are not negative, in both variants. |
| `TimerFd.CommittedIsExactExactlyWhen` | timer/timer_fd.cpp:40-52 | The committed timespec is exact if and only if less than 1000 microseconds remain, or, on a clock that ticks in nanoseconds, no more than 100 of them. |
| `TimerFd.NeverEarly` | timer/timer_fd.cpp:40-52 | In both variants and for either clock tick the descriptor never expires before that time is over. |
| `TimerFd.WakeUpFindsWork` | timer/timer_fd.cpp:63-74 | When an up-to-date deadline expires on a non-empty queue, the batch is not empty. |
| `TimerFd.CommittedTimersNeverFire` | timer/timer_fd.cpp:54-61 | In the committed code no timer fires in any run. |
| `TimerFd.RepairedRunsAreQueueRuns` | timer/timer_fd.cpp:54-61 | With the callback called, the event loop's runs are the queue's runs, so all timer laws apply to them. |
| `Pollers.AddKeepsMirror` | event/poller.hpp:45-77 | An addition on a table that mirrors the kernel up to disabled one-shot descriptors is accepted, unites the marks, stores the callback under its bits, enables the descriptor again and leaves every other alone. |
| `Pollers.DelKeepsMirror` | event/poller.hpp:79-114 | A deletion on such a table is never refused by the kernel, mirrors again, and returns 0 if and only if the descriptor is in range and has a mark. |
| `Pollers.ReportKeepsMirrorExactlyWhen` | event/poller.hpp:125-127 | A report leaves the kernel as the table says if and only if the descriptor's mark is not one-shot. |
| `Pollers.HistoriesMirror` | event/poller.hpp:45-138 | Over every history of additions, deletions and reports the kernel accepts every request; every descriptor has the mark and the three callbacks that the history leaves it, and is registered for the encoding of that mark, or for nothing if its one-shot mark was reported since. |
| `Pollers.KernelAsksExactly` | event/poller.hpp:63-70 | Event by event: after any history the kernel has a descriptor if and only if the history gives it a mark, and reports it for input, for output and once if and only if the mark has READ, WRITE and ONESHOT, and for nothing else, unless a one-shot report has disabled it. |
| `Pollers.MirrorsExactlyWhen` | event/poller.hpp:45-138 | After a history the kernel has exactly what the table says if and only if every one-shot report was followed by an addition or a deletion. |
| `Pollers.ReportedIsEnabledExactlyWhen` | event/poller.hpp:56-67 | With the comparison alone, adding a reported one-shot descriptor enables it if and only if another mark is added than it has; repaired, always. |
| `Pollers.AddKeepsWatchedExactlyWhen` | event/poller.hpp:60-67 | Registered means watched for READ or WRITE; an addition keeps that if and only if the marks of the descriptor, old and new, contain one of the two. |
| `Pollers.DelKeepsWatched` | event/poller.hpp:90-94 | Deletions always keep it. |
| `Pollers.WatchedThroughoutExactlyWhen` | event/poller.hpp:45-114 | Throughout a history every registered descriptor keeps READ or WRITE in its mark if and only if every addition leaves a mark with one of the two. |
| `Pollers.MarksWatch` | event/poller.hpp:60-67 | That is so whenever every mark added has one of the two itself. |
| `Pollers.CommittedHistories` | event/poller.hpp:56-70 | In the committed code no mark is ever stored and an added descriptor is registered for no event, for good. |
| `Pollers.CommittedFaults` | event/poller.hpp:82-85 | The committed table is indexed out of bounds if and only if the history deletes at 4096. |
| `Pollers.CommittedMirrorsExactlyWhen` | event/poller.hpp:45-114 | The committed table mirrors the kernel after a history if and only if nothing in range was added and nothing deleted at 4096. |
| `PollerObject.DispatchIsFaithful` | event/poller.hpp:125-137 | After any history and for anything the kernel may report, each callback handed out is the latest handler of a descriptor reported for its bit, and every read or write callback is callable. |
| `PollerObject.EveryReportIsDispatched` | event/poller.hpp:125-137 | No reported bit is left out. |
| `PollerObject.EmissionsInOrder` | event/poller.hpp:125-137 | The callbacks come report by report, and for one report read, write, error: each reported bit has its slot at exactly one place of the list, and the list has no other places. |
| `PollerObject.AllCallableExactlyWhen` | event/poller.hpp:134-136 | All callbacks handed out are callable if and only if every error or hang-up reported is for a descriptor with an error callback. |
| `PollerObject.Poller.AddEvent` | event/poller.hpp:45-77 | The in-place code computes the addition on values, result code included. |
| `PollerObject.Poller.DelEvent` | event/poller.hpp:79-114 | The in-place code computes the deletion on values, result code included. |
| `PollerObject.PollContinuesHistory` | event/poller.hpp:116-138 | A poll carries the history of its poller on by its reports, so the laws over histories hold behind it. |
| `PollerObject.Poller.Poll` | event/poller.hpp:116-138 | The loop hands out the slots of all reports in order, and what was reported one-shot is disabled; the committed call hands out nothing. |
| `SharedTable.AddArmsExactlyWhen` | event/poller.hpp:56-70 | When an addition through one of several pollers leaves the descriptor registered there for the events of all its marks, as an equivalence: unmarked everywhere, or in this poller's kernel already and, for an equal mark, one-shot or still armed. |
| `SharedTable.HandOverWithoutReleaseIsLost` | event/poller.hpp:142-144 | A listening descriptor that is only enabled in the next worker's poller never arrives there. |
| `SharedTable.ComparisonLeavesItDisabled` | event/poller.hpp:56-58 | The holder of the listening socket enables it again after a report: with the comparison alone nothing reaches the kernel and the server stops listening, repaired it is armed. |
| `SharedTable.ListeningGoesOn` | net/acceptor.cpp:42-46 | After any sequence of reports, renewed enabling and hand-overs with a release, over any number of pollers, the listening socket is registered with its last holder alone, there for input and one report if and only if the last thing that happened to it was not a report. |
| `Baton.ActorKeepsBaton` | net/acceptor.cpp:33-59 | Each action of a worker keeps the baton of every acceptor in exactly one place at the lock's holder. |
| `Baton.OthersKeepBaton` | server.cpp:112-120 | No action of one worker takes or gives another worker's baton. |
| `Baton.StepKeepsWatch` | server.cpp:126-133 | After every step a free lock has a worker that will try it before it waits again. |
| `Baton.TryTakesOrPasses` | server.cpp:114-119 | A try takes a free lock and goes on to arm the acceptor; at a lock that another worker holds it changes nothing but the worker's own place, which is the next acceptor. |
| `Baton.EnableArms` | net/acceptor.cpp:42-46 | Enabling arms the one acceptor in the worker's own poller and goes on to the next. |
| `Baton.LoopObeysStop` | server.cpp:126-133 | The loop begins each round with the first acceptor, and ends once the server is stopping. |
| `Baton.CheckGoesOn` | server.cpp:112-120 | `check()` never waits: each step of a worker inside it that stays defined lowers the number of its steps left, whoever holds the locks. |
| `Baton.CheckEnds` | server.cpp:112-133 | So in every run a worker inside `check()` has come to wait in poll after at most one try and one enabling per acceptor, whatever the others do meanwhile. |
| `Baton.NeverStuck` | server.cpp:126-133 | A worker that does not wait in poll and has not left `run()` always has a next step. |
| `Baton.RoundGoesOn` | scheduler.cpp:42-53 | And every such step brings it nearer to its next poll: events are taken up one after the other, the accept loop ends with the backlog, every client is handed over. |
| `Baton.RunKeepsInv` | server.cpp:112-133 | The invariant holds in every reachable state. |
| `Baton.OwnerIsArmed` | server.cpp:112-120 | A worker about to try a lock owns it if and only if the acceptor is still armed in its own poller. |
| `Baton.NoLostBaton` | server.cpp:112-133 | For any number of workers and acceptors, while the server is not stopping: a free lock has a worker that will check it before it next blocks, and a held lock has its baton armed, pending or in use at the holder, exactly once, and nowhere else. |
| `Baton.WillCheckTries` | server.cpp:112-133 | What that means: in every continuation in which that worker comes to wait in poll before a stop, it has tried the lock. |
| `Baton.FreeLockIsTried` | server.cpp:112-133 | In every reachable state before a stop, a free lock has a worker that cannot come to wait without having tried it. |
| `Baton.RestingServerListens` | scheduler.cpp:42-53 | When every worker waits in poll, each acceptor is enabled in exactly one poller, that of its lock's holder. |
| `Baton.AcceptIsExclusive` | net/acceptor.cpp:48-52 | At most one worker is inside accept on an acceptor, and it is the holder, so only the holder unlocks. |
| `Baton.ActionConserves` | net/acceptor.cpp:48-59 | No action loses or duplicates a client. |
| `Baton.EachClientInOnePlace` | net/acceptor.cpp:48-59 | Every client that ever arrived is in exactly one place: a backlog, one worker's list, the connections, or closed, although the lock is released before the hand-over. |
| `Baton.RunFaultsExactlyWhen` | net/acceptor.cpp:33-36 | Over every run, the committed code calls `try_lock` on a mutex its worker owns if and only if a worker comes round to an acceptor that is still armed in its poller; the repaired code never does. |
| `Baton.OwnerTriesAgain` | server.cpp:126-133 | One worker and one acceptor: a round, a poll that reports nothing, and the second round tries the lock it holds. |
| `Lifecycle.EraseNodeKeepsOthers` | server.cpp:108-110 | Erasing a node leaves every other node, and its identity, in the list. |
| `Lifecycle.IdleInv` | server.cpp:17-20 | A server without clients, with any number of workers, satisfies the invariant. |
| `Lifecycle.NewConnectionKeeps` | server.cpp:96-106 | Accepting a client adds list entry, registration and queued timer together, the last two with the accepting worker. |
| `Lifecycle.NewConnectionMeaning` | server.cpp:96-106 | One entry more, at the place the new index names; the descriptor is registered and queued, and every other index is as it was. |
| `Lifecycle.NewTimer` | net/connection.cpp:27-28 | The new connection is due exactly one interval after it was accepted, and no other expiration changes. |
| `Lifecycle.UnlinkKeeps` | server.cpp:108-110 | Erasing a connection takes its entry and its index, each once, and leaves every other connection's entry where its index names it. |
| `Lifecycle.CloseKeeps` | net/connection.cpp:49-53 | Closing ends exactly the one connection, whenever it is destroyed: its registration and its timer go at once, and every other connection keeps all it has. |
| `Lifecycle.CloseRemovesOnce` | net/connection.cpp:16-19 | Closing, with the destructor that cancels and disables a second time, removes all three exactly once and touches no other connection. |
| `Lifecycle.BuryAllKeeps` | net/connection.cpp:16-19 | Destroying behind the list all connections that have ended leaves exactly those that have not, and no queue changes any more. |
| `Lifecycle.TimeoutUnqueues` | net/connection.cpp:70-75 | A batch whose callbacks cancel their own timers takes exactly the batch out of the queue. |
| `Lifecycle.AtOnceFaults` | timer/timer_queue.cpp:75-79 | If any connection of the worker is due, the first is destroyed by its callback, and `reset` reads its timer afterwards. |
| `Lifecycle.CommittedQueueFaultsExactlyWhen` | net/connection.cpp:73 | In the committed queue the callback's own cancel faults before that, for every connection timer that fires and for no other reason. |
| `Lifecycle.TimeoutEndsDue` | net/connection.cpp:70-81 | When the erasure waits, a timeout ends exactly the worker's connections that were due, leaves every other where its index names it, and touches no destroyed timer. |
| `Lifecycle.LiveConnection` | server.cpp:96-110 | Among N workers, a live connection has exactly one list entry, at the place its index names, one registration, for input and its own callback, with its own worker's poller, and one queued timer, with its own worker's queue; any other descriptor has none anywhere. |
| `Lifecycle.ReadEndsExactlyWhen` | net/connection.cpp:47-54 | A read ends the connection if and only if it meets end of file or, in the repaired code, an error other than EAGAIN; otherwise it leaves the whole server as it is. |
| `Lifecycle.CommittedReadDiffersExactlyOnErrors` | net/connection.cpp:48-49 | The committed handler differs from the repaired one if and only if the read fails with an error other than EAGAIN. |
| `PollLists.EntryFaultsExactlyWhen` | scheduler.cpp:47-50 | One event touches a destroyed connection if and only if it is for one that is gone, or it is a timeout that finds a connection due and erases at once; otherwise what a turn keeps is kept. |
| `PollLists.EntryKeepsObjects` | scheduler.cpp:47-50 | Only connections of the worker whose turn it is come and go, and each keeps its identity. |
| `PollLists.TurnFaultsExactlyWhen` | scheduler.cpp:42-53 | A turn touches a destroyed connection if and only if one of its events does; otherwise the invariant holds again, and every other worker has its queue, its registrations and its connections as before. |
| `PollLists.LateEntryFaultsExactlyWhen` | scheduler.cpp:45-50 | With the erasure behind the batch alone: if and only if some event is for a connection that an earlier event ends, by a closing read of it or by a timeout for which it was due before the poll. |
| `PollLists.RepairedTurnKeepsInv` | scheduler.cpp:42-53 | With the erasure behind the list, no list of events touches a destroyed connection, and the invariant holds after every turn. |
| `PollLists.TimedOutConnectionIsTouched` | scheduler.cpp:45-50 | In every state: the timer descriptor first, then a connection that is due. Erased at once or behind the batch it is touched after its end, erased behind the list it is not. |
| `PollLists.TimedOutClient` | net/connection.cpp:70-81 | The first client of a new server gets there, an interval after it was accepted. |
| `PollLists.RunsKeepInvExactlyWhen` | scheduler.cpp:42-53 | After any run of turns of any number of workers, that accept, read, close and time out, each connection has its list entry, registration and queued timer, with its own worker, or none of them, and no destroyed connection was touched: repaired always, otherwise if and only if every event meets its guard. |
| `Turns.EntryTakesEffect` | scheduler.cpp:47-50 | What one event does: a closing read ends the connection it is for, a timeout exactly those of its worker that are due, a client becomes a connection of the worker, and everybody else stays. |
| `Turns.TurnIsIdeal` | scheduler.cpp:42-53 | A turn that touches nothing destroyed leaves just the connections, with their workers, identities and due times, that its events say one after the other. |
| `Turns.RepairedTurnLeaves` | scheduler.cpp:42-53 | Behind a repaired turn the connections are exactly the old ones that no event of the list ended, as they were, and the clients handed over that no later event ended, due an interval after they came. |
| `Turns.RunsAreIdeal` | scheduler.cpp:42-53 | Over every run of turns of any number of workers the connections are those of a set that knows no list, table, queue or erasure. |
| `ServerObject.ServerState.constructor` | server.cpp:17-20 | Real pollers over one table and real timer queues, one of each per worker, start in the invariant. |
| `ServerObject.ServerState.HandleNewConnection` | server.cpp:96-106 | Run on the worker's real poller and timer queue: one entry is appended at the place the new index names, the descriptor is in this worker's kernel list for input and in its queue, due an interval from now, every other index is unchanged, the joint invariant is kept, and no object of another worker is written. |
| `ServerObject.ServerState.HandleClose` | server.cpp:108-110 | Exactly the entry of this connection leaves the list, its index goes, every other index still names its entry, and the destructor has cancelled and unregistered. |
| `ServerObject.ServerState.HandleRead` | net/connection.cpp:47-54 | The connection, its registration and its queued timer go together, exactly on the results that close it, and nobody else's do; the handler runs on a destroyed connection if and only if the one that was reported is gone. |
| `ServerObject.ServerState.HandleTimeout` | timer/timer_queue.cpp:49-56 | Timer by timer, on the real objects: a destroyed timer is touched if and only if connections are erased at once and one is due; otherwise what a turn keeps is kept. |
| `ServerObject.ServerState.RunTurn` | scheduler.cpp:42-53 | The loop over the collected events, and the destruction behind it, compute the turn on the real objects: it touches a destroyed connection if and only if an event's guard fails, and otherwise restores the invariant, leaves all other workers as they were, and has just the connections that its events say; repaired, those are the old ones that no event ended and the clients that no later one ended. |

## Left out

Weaker than the code's promise:

- Connections.RunKeepsLaws: for the committed code it covers the runs that take no departing branch; a run that takes one can still end with the right bytes, so the exact conditions are per operation and per step (`CleanExactlyWhenEveryContentKept`, `ScatterReadExactlyWhen`, `WriteConservesExactly`, `QueuedSendConservesExactlyWhen`, `QueuedWriteConservesExactly`).
- Connections.SendQueuedConserves: says nothing of one send whose queue compacts over unread bytes, because for particular bytes the result can be right by chance; `QueuedSendConservesExactlyWhen` closes this over all contents.
- Connections.SendConserves: is silent on the same sends, for the same reason.
- Connections.ReadStep: for the committed code, only for reads that compact over no unread byte.
- Connections.WriteStep: for the committed code, only for writes whose result is not misread; `QueuedWriteConservesExactly` has the converse.
- Sockets.TcpSocket.Read: interrupts are finitely many per call.
- Sockets.TcpSocket.Write: interrupts are finitely many per call; after a misread result that moves the read index in front of the array nothing is claimed.
- Sockets.TcpSocket.Accept: a method has to end, so its answers end in EAGAIN; the loop on an endless stream is `AcceptReturnsExactlyWhen`.
- PollLists.RunsKeepInvExactlyWhen: the queues and the table are the repaired ones, since the committed table never mirrors an added descriptor (`CommittedMirrorsExactlyWhen`) and the committed queue faults in every connection timeout (`CommittedQueueFaultsExactlyWhen`). Its guard is read off the state before each event; for one turn with the erasure behind the batch `LateEntryFaultsExactlyWhen` says the same of the list and the state before the poll.
- Baton.NoLostBaton: says nothing about fairness between workers, and only its statements about held locks survive the stop flag.
- PollerObject.AllCallableExactlyWhen: the committed table is not covered, because its `poll` hands out nothing.

Not modelled:

- Real system calls, errno, creating and closing descriptors: arguments of the steps.
- Data races on `m_connections`, `m_stop_flag` and the static `m_events`: the workers share the first and the last without a lock, and here hand-over, closing, registration and, in the life cycle, whole turns are atomic steps. `Baton` uses the acceptor's own registration, which `enable_event_call_back` moves between pollers; what the shared table of event/poller.hpp makes of it is in `SharedTable`.
- `std::mutex::try_lock` failing spuriously.
- `event/event.h` and `event/poller.h`, the older interface that many files include, are not part of this model: `enable_reading` and `disable_all` are an addition and a deletion on the table.
- Allocation failure and size arithmetic beyond 2^64; bytes of an array that were never written; the move constructor of `buffer`, whose new object starts with a null array.
- Mark bits other than the four named ones.
- Writeable and error events in the poll lists of the life cycle: such an event ends no connection, so to the life cycle it is an event whose read closes nothing.
- The write to `m_running` in a timer whose callback destroyed it (timer/timer.cpp:28-29): the life cycle counts the later read in `reset` and uses the repaired `run`, which touches nothing behind the callback.
- Setting the interval, the handler or the expiration of a timer that is running, the three-argument constructor of `timer`, and exceptions from callbacks.
- `std::set` as a search tree: it is its ordered sequence of elements.
- What a splitter or a dispatcher computes: arbitrary functions, of which the first only has to stay within the bytes it was given.
- Logger, configuration, endpoints, address lookup, socket options, UDP and raw sockets, the thread pool, the awakener, the task queue that nothing drains, and address parsing in `server::init`.
- Sessions as objects: a session lives for one packet and is the function from the packet to its responses.
