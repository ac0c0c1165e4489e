# Verification of the TCP server's concurrent and byte-level core

A Dafny model of four parts of the server, and proofs about them.

**The worker pool** (`WorkerPool`, `Pool*`, `Tally`). Two bounded queues, two mutexes, two condition variables and an atomic
stop flag, used by N workers and any number of submitting, popping and stopping threads. Every thread has a program
counter; a step is one lock acquisition, one evaluation of a wait predicate, one park, one load or write of the flag,
one queue edit or one notification. The flag is written without either mutex, so it can change in the middle of
another thread's critical section, and spurious wake-ups are allowed. All invariants are proved over every
interleaving and for all four combinations of overflow policies. `PoolQueues` holds the critical sections as methods
of an object that edits its queues in place, and lemmas that tie them to the steps.

**The echo event loop** (`Codec`, `MachineWord`, `FrameStream`, `Connection`, `SocketIo`, `SelectPoller`, `EchoContract`,
`EchoServer`, `EchoRun`). Objects and loops as in the source: buffers, poller interest, slots and completions are
edited in place. The kernel's answers to recv, send and accept are arbitrary scripts, and so is what select reports.
The main result is byte-exact: between any two events, for every live connection, bytes sent + write buffer + read
buffer = bytes received, and bytes sent + write buffer is the encoding of the frames received. Bytes received are what
the kernel's answers delivered, bytes sent what they took, and every turn serves everything it reports in full. The
loop gives up only for a call that has just failed or a frame that is too long, and never goes on past one.

**Graceful shutdown** (`Lifecycle`, `GracefulServer`). The lock-free coordinator as a step system of loads and
compare-and-swaps by any number of threads, and the same event loop composed with the coordinator while other threads
request shutdown.

**Idle tracking** (`IdleTimeout`). A table edited in place, specified by the history of calls made on it.

What the proofs found that the code's comments, documentation or assertions do not say:

- `shutdown` can hang. A worker that has found its wait predicate false but is not blocked yet misses the
  notification, because the flag is set and the notifications are sent without the mutexes.
  `PoolShutdown.ShutdownMissesTaskWaiterIff` and `ShutdownMissesResultWaiterIff` give the exact condition at the
  notification, and `PoolJoin.ShutdownCanHangIff` gives it at the call. For a pool with a single client it reads: the
  call can hang if and only if some worker is not blocked when it is made. A client that may still pop and submit
  before it calls shutdown can always run into the hang (`PoolHang.ShutdownCanHangFromAnywhere`).
- The assertions at `src/core/lifecycle.cpp:18` and `:46`, listed in `docs/INVARIANTS.md` without any restriction to
  one thread, can fail. The first holds for a thread if and only if no other thread submits drained reports, the
  second if and only if at most one thread does (`Lifecycle.RequestAssertHoldsIff`, `AdvanceAssertHoldsIff`). So the
  first can fail in the documented use, where one thread requests and another advances.
- An `Incomplete` buffer need not have a completion: one byte 0xFF under a cap of 1024 is `Incomplete`, and the
  oversize verdict only comes with the fourth byte (`Codec.IncompleteCanComplete`).
- Branches that are never reached: the constructor's third check, the `continue` in `worker_loop`, the second branch
  after the send loop of `try_flush_writes`, the index checks that would skip a client event, the dispatch and encode
  aborts, the last two checks of the stream benchmark, and, where its assertion that the phase is Stopped is compiled
  in, the closing loop of the graceful server. (Without assertions the deadline reaches that loop with live slots.)
- After a request for shutdown a connection can still be accepted, since the phase is tested once per listener event
  and not in the accept loop (`GracefulServer.AdmitWhileDraining`; exactly when: `AdmitsLateIff`). The guarantee that
  nobody new is served starts when the listener is unregistered (`GracefulServer.Graceful.Run`).
- A stopping worker in drop-oldest mode may evict results and then publish nothing; the conservation law counts the
  evicted results and the discarded one.

## Model

| member | source | states |
|---|---|---|
| WorkerPool.Construct | src/runtime/worker_pool.cpp:10-34 | construction succeeds exactly when there is a worker and the queue capacity is not zero, and then yields the configuration asked for, with the result capacity overridden exactly if the override is not zero; the third check can never fire |
| WorkerPool.Submit | src/runtime/worker_pool.cpp:56-66 | refuses exactly when the queue is full under the reject policy; otherwise the task ends up behind what was pending, less the oldest task if the queue was full |
| WorkerPool.Surplus | src/runtime/worker_pool.cpp:125-129 | drop-oldest mode removes nothing if there is room, and otherwise exactly as much as makes room for one more result |
| WorkerPool.ClientStep | src/runtime/worker_pool.cpp:40-84 | what one step of a submitter, popper or stopper leaves alone: other threads are at most woken, and each queue changes only in its own critical section |
| WorkerPool.TaskSideStep | src/runtime/worker_pool.cpp:87-104 | the same for a worker's step on the task side |
| WorkerPool.ResultSideStep | src/runtime/worker_pool.cpp:106-148 | the same for a worker's step on the result side |
| WorkerPool.WorkerStep | src/runtime/worker_pool.cpp:86-150 | the same for any worker step |
| PoolSafety.StepKeepsSafe | src/runtime/worker_pool.cpp:50-150 | mutual exclusion on both mutexes, queue bounds, and what each thread may rely on at its program point, kept by every step of every thread |
| PoolSafety.WorkerStepKeepsLocks | src/runtime/worker_pool.cpp:86-150 | a worker's step hands each mutex over correctly |
| PoolSafety.WorkerStepKeepsOwnKnowledge | src/runtime/worker_pool.cpp:86-150 | a worker's step keeps both capacities and re-establishes what the worker may rely on next |
| PoolSafety.WorkerStepKeepsOthersKnowledge | src/runtime/worker_pool.cpp:86-150 | a worker's step invalidates nothing that another worker relies on inside its critical section |
| PoolSafety.ClientStepKeepsGuards | src/runtime/worker_pool.cpp:40-84 | the same for submitters, poppers and the unlocked stop write |
| PoolLedger.StepKeepsLedger | src/runtime/worker_pool.cpp:50-150 | every task and result stays in exactly one place across every step |
| PoolOrder.StepKeepsOrder | src/runtime/worker_pool.cpp:50-150 | both queues stay first in, first out across every step, and a lone worker's results stay in the order of its tasks |
| PoolWakeups.StepKeepsWakeups | src/runtime/worker_pool.cpp:65-148 | both no-lost-wake-up invariants are kept by every step, spurious wake-ups included |
| PoolWakeups.WorkerStepKeepsTaskWakeup | src/runtime/worker_pool.cpp:90-104 | a worker that blocks or moves on never strands a pending task with a blocked worker and nobody due to notify |
| PoolWakeups.ClientStepKeepsSpaceWakeup | src/runtime/worker_pool.cpp:72-84 | a pop that makes room leaves its notify_all due as long as somebody is blocked for room |
| PoolWakeups.ClientNotificationsWake | src/runtime/worker_pool.cpp:40-84 | notify_one on task_cv wakes one worker that waits there if there is one, notify_all everybody who waits on its condition variable, and no step wakes anybody else |
| PoolWakeups.WorkerNotificationsWake | src/runtime/worker_pool.cpp:104-148 | the same for the notify_all after a task is taken and the notify_one after a result is published |
| PoolInvariant.ReachableInvariant | src/runtime/worker_pool.cpp:40-150 | all of the above holds in every reachable state, for any number of workers, submitters, poppers and stoppers, before and after stop |
| PoolInvariant.NoLostWakeups | src/runtime/worker_pool.cpp:65-148 | before stop, a pending task with a worker blocked for tasks means that a notification is due or a worker is on its way; before and after stop, room with a worker blocked for room means that a popper's notify_all is due |
| PoolInvariant.SourceAssertsHold | src/runtime/worker_pool.cpp:66-146 | every assertion about queue sizes holds whenever it is evaluated |
| PoolInvariant.ContinueIsDead | src/runtime/worker_pool.cpp:94-99 | the continue after the wait is never reached: a worker finding the queue empty after its wait has been stopped |
| PoolInvariant.Conservation | src/runtime/worker_pool.cpp:50-150 | under all four policies the answers to the accepted tasks, correlation ids included, are as a multiset: pending, undispatched in hand, finished in hand, queued, popped, evicted as task, evicted as result, or discarded at stop; no task is dispatched more often than it was accepted |
| PoolInvariant.BackPressure | src/runtime/worker_pool.cpp:56-66 | before stop, under the default policies, accepted minus popped is at most task capacity + workers + result capacity |
| PoolInvariant.LoneWorkerAnswersInOrder | src/runtime/worker_pool.cpp:50-146 | with one worker, popped followed by queued results is a prefix of the handled accepted tasks under the default policies, also across stop, and a subsequence of them under any policy |
| PoolAnswers.HandlingAnswers | src/runtime/worker_pool.cpp:106-121 | what a worker makes of a task carries its correlation id and what the dispatcher says to its payload |
| PoolAnswers.EveryAnswerHasItsTask | src/runtime/worker_pool.cpp:50-146 | no answer is made up: every result popped, queued, evicted, discarded or in hand has the correlation id of an accepted task and what the dispatcher says to its payload |
| PoolAnswers.PoppedIdsWereAccepted | src/runtime/worker_pool.cpp:50-146 | as a multiset the correlation ids popped are among those accepted |
| PoolAnswers.EveryIdIsDelivered | src/runtime/worker_pool.cpp:50-146 | lossless delivery, id by id: at rest before stop with room, the ids popped or ready are exactly those accepted |
| PoolAnswers.LoneWorkerAnswersOneByOne | src/runtime/worker_pool.cpp:50-146 | with one worker and the default policies the i-th result has the i-th accepted task's correlation id and what the dispatcher says to its payload |
| PoolStop.AftermathOfStop | src/runtime/worker_pool.cpp:40-147 | after stop is set, however the run continues: at most one more task accepted, at most one more result published, at most one more task dequeued by each worker |
| PoolStop.AcceptAndDequeueAfterStop | src/runtime/worker_pool.cpp:40-66 | the acceptance and dequeue bounds are attained: a submitter that read the flag clear still gets in |
| PoolStop.PublishAfterStop | src/runtime/worker_pool.cpp:123-147 | the publication bound is attained |
| PoolProgress.InternalStepFalls | src/runtime/worker_pool.cpp:72-150 | every step of a thread inside the pool lowers a lexicographic measure of remaining work, due notifications and distance to rest |
| PoolProgress.RunsAreBounded | src/runtime/worker_pool.cpp:72-150 | so runs without new calls and spurious wake-ups are no longer than a number computed from the starting state |
| PoolProgress.EveryoneRests | src/runtime/worker_pool.cpp:86-150 | where no step is possible every worker is blocked or gone and every caller is idle or joining |
| PoolProgress.RestingWorkersWantTasks | src/runtime/worker_pool.cpp:90-148 | such a state before stop, with room among the results or in drop-oldest mode, has no pending task and all workers waiting for tasks |
| PoolProgress.CalmWorkersWantTasks | src/runtime/worker_pool.cpp:90-148 | the same already where the only possible steps are to set the stop flag |
| PoolProgress.EverythingIsDelivered | src/runtime/worker_pool.cpp:50-150 | under the default policies such a state has delivered or made ready for popping the answer to every accepted task exactly once |
| PoolProgress.RunToRest | src/runtime/worker_pool.cpp:72-150 | a resting state is reachable from every safe state by the threads' own steps |
| PoolShutdown.ShutdownReturns | src/runtime/worker_pool.cpp:40-48 | if the notification of task_cv finds nobody about to block there and, however the run goes on in between, that of result_cv finds nobody about to block there, every maximal run ends with all workers gone and every shutdown call returned |
| PoolShutdown.ShutdownMissesTaskWaiterIff | src/runtime/worker_pool.cpp:40-48 | the exact condition on the task side: some run blocks a worker for ever after the notify_all if and only if a worker sits between its predicate check and its park at that step |
| PoolShutdown.ShutdownMissesResultWaiterIff | src/runtime/worker_pool.cpp:40-48 | the exact condition on the result side, as long as nobody pops |
| PoolShutdown.ShutdownCanHang | src/runtime/worker_pool.cpp:40-48 | in every valid pool there is a run in which a worker misses the stop notification and shutdown waits in its join |
| PoolShutdown.StuckOnTaskForever | src/runtime/worker_pool.cpp:40-48 | that worker stays blocked and the join stays disabled on every continuation without spurious wake-ups |
| PoolShutdown.StuckOnResultUntilPop | src/runtime/worker_pool.cpp:136-142 | the result-side counterpart: only a pop or a spurious wake-up can free the worker |
| PoolHang.ShutdownCanHangFromAnywhere | src/runtime/worker_pool.cpp:40-48 | from every reachable state before stop, for every idle client that may still pop and submit before it calls shutdown, some continuation leaves that call in its join, and no further continuation without spurious wake-ups frees it |
| PoolHang.RunToRoom | src/runtime/worker_pool.cpp:72-148 | from every safe state before stop with an idle client and a client, possibly the same, that is not about to stop the pool, the latter can bring the threads to rest with room among the results and without the flag being set |
| PoolHang.RunToPark | src/runtime/worker_pool.cpp:50-98 | and from there one more task of that client brings a worker between its check and its park |
| PoolHang.HangAtTaskPark | src/runtime/worker_pool.cpp:40-98 | a call of shutdown that begins while a worker is between its check and its park can pass it by and go on to its join |
| PoolCanPark.WorkerKeepsCanPark | src/runtime/worker_pool.cpp:86-150 | whether the workers alone can bring one of them to block for tasks, told by counting places for pending work, stays true until one is about to |
| PoolCanPark.WorkerKeepsCannotPark | src/runtime/worker_pool.cpp:86-150 | and no step of theirs makes it true |
| PoolJoin.ShutdownCanHangIff | src/runtime/worker_pool.cpp:40-148 | the exact condition at the call: a shutdown that an idle client calls next can be left in its join for good if and only if some other client is not itself about to stop the pool, or it is the only client and some worker is not blocked, or the workers alone can bring one of them to block for tasks |
| PoolJoin.WorkersPark | src/runtime/worker_pool.cpp:86-142 | where the workers can, their own steps do bring one of them to where it is about to block |
| PoolJoin.HangAtResultPark | src/runtime/worker_pool.cpp:40-142 | with only one client, a worker about to block for room when it calls shutdown blocks for good, and so does the call, since nobody is left to pop |
| PoolJoin.RunKeepsSpared | src/runtime/worker_pool.cpp:40-148 | where the condition does not hold, no run makes it hold before the call, and the call's notifications find nobody about to block |
| PoolJoin.JoinIsNotForGood | src/runtime/worker_pool.cpp:40-148 | such a call returns by itself or after one more pop of another client |
| PoolSettled.SettledShutdownReturns | src/runtime/worker_pool.cpp:40-48 | if all workers are blocked when the only client calls shutdown, every maximal run that sets the flag ends with all workers gone and the call returned |
| PoolSettled.SettledStateExists | src/runtime/worker_pool.cpp:86-150 | every valid pool has such a state |
| PoolSettled.AwakeIsNotEnough | src/runtime/worker_pool.cpp:40-148 | with several clients an awake worker alone is no danger: a state with an awake worker in which the call cannot be left in its join for good |
| PoolShutdown.AllGone | src/runtime/worker_pool.cpp:86-150 | where nobody can move and nobody is blocked, every worker is gone and every caller is idle |
| PoolShutdown.AtomicParkingAlwaysExits | src/runtime/worker_pool.cpp:90-98 | if check and park were one step, every maximal run that sets the flag would end with all workers gone and every call returned |
| PoolAtomicParking.RunToRestAtomically | src/runtime/worker_pool.cpp:90-142 | with atomic parking the threads' own steps still lead to rest |
| PoolAtomicParking.AtomicParkingGetsThere | src/runtime/worker_pool.cpp:90-142 | every run with atomic parking that has set the flag extends, with atomic parking, to one that ends with all workers gone and every call returned |
| PoolQueues.Pool.TrySubmit | src/runtime/worker_pool.cpp:50-70 | accepts exactly if not stopped and there is room or the oldest task may be dropped; the queue afterwards, with the drop and the new task at the back |
| PoolQueues.Pool.TryPopResult | src/runtime/worker_pool.cpp:72-84 | removes the oldest result and leaves strictly less than the capacity, or reports an empty queue and changes nothing |
| PoolQueues.Pool.TakeTask | src/runtime/worker_pool.cpp:89-103 | takes the oldest task, also after stop, or ends the worker exactly if stopped with nothing pending, or waits; the queue loses exactly the task taken |
| PoolQueues.Pool.PublishResult | src/runtime/worker_pool.cpp:123-147 | discards exactly after stop, waits exactly if not stopped and full in the blocking mode; the queue afterwards in both modes, with exactly the surplus evicted, also by a stopped worker that then publishes nothing |
| PoolQueues.UndisturbedSubmit | src/runtime/worker_pool.cpp:50-70 | the steps of an undisturbed submitter are refused without a trace after stop; otherwise they accept exactly if there is room or the oldest task may be dropped, make the edit that Pool.TrySubmit is proved to make, and end with a notification due exactly if the task was accepted |
| PoolQueues.UndisturbedPop | src/runtime/worker_pool.cpp:72-84 | the same for try_pop_result, with and without a result |
| PoolQueues.UndisturbedTake | src/runtime/worker_pool.cpp:89-104 | the same for a worker's first critical section, whether it takes a task, exits or blocks |
| PoolQueues.UndisturbedPublish | src/runtime/worker_pool.cpp:123-147 | the same for its second: it discards exactly after stop, blocks exactly where Pool.PublishResult waits, and otherwise publishes, with the same queue afterwards in both overflow modes |
| Codec.ReadIsPortable | src/protocol/frame_decoder.cpp:12-19 | copying four bytes into a native integer and swapping where needed reads the big-endian number on both byte orders |
| Codec.IntegerRoundTrip | src/protocol/frame_encoder.cpp:16-21 | the shifting writer and the copying reader are inverse to each other, both ways round, on both byte orders |
| MachineWord.ShiftAndMaskIsOctet | src/protocol/frame_encoder.cpp:16-21 | shifting and masking the 32-bit machine word yields the octets of its number |
| MachineWord.SwapBytesIsByteSwap | src/protocol/frame_decoder.cpp:12-19 | swapping the machine word's bytes swaps its number's octets |
| MachineWord.ShiftThenSwapRoundTrip | src/protocol/frame_decoder.cpp:12-19 | written by shifts, copied into a native word and swapped where needed, every 32-bit word is itself again, on both byte orders |
| Codec.ByteVector.PushBe32 | src/protocol/frame_encoder.cpp:16-21 | appends the four octets, most significant first |
| Codec.AppendEncodedFrame | src/protocol/frame_encoder.cpp:25-47 | refuses, leaving the vector alone, exactly if the payload exceeds the cap or 32 bits; otherwise appends four octets that spell its length, most significant first, and the payload |
| Codec.TryDecodeFrame | src/protocol/frame_decoder.cpp:27-55 | with n spelt by the first four octets: oversized exactly if n exceeds the cap or 32 bits, complete exactly if n is within the cap and 4 + n bytes are there, which are then consumed; nothing is consumed and no payload returned otherwise; agrees with the specification of decoding, on both byte orders |
| Codec.DecodeFrame | src/protocol/frame_decoder.cpp:27-55 | a complete frame consumes at least four bytes and no more than there are, so decoding loops end |
| Codec.DecodeEncode | src/protocol/frame_decoder.cpp:27-55 | decoding an encoded payload gives it back whatever follows |
| Codec.EncodeDecode | src/protocol/frame_encoder.cpp:25-47 | encoding a decoded payload reproduces exactly the bytes that were consumed, so the encoder accepts it under the same cap |
| Codec.VerdictIsFinal | src/protocol/frame_decoder.cpp:27-55 | Complete and OversizedLength never change when bytes arrive |
| Codec.StrictPrefixIsIncomplete | src/protocol/frame_decoder.cpp:28-41 | every strict prefix of a frame within the cap is Incomplete |
| Codec.IncompleteCanComplete | src/protocol/frame_decoder.cpp:28-41 | an Incomplete buffer can still become a frame if and only if zero-filling its length field stays within the cap |
| Codec.IncompleteMayBeDoomed | src/protocol/frame_decoder.cpp:28-41 | a concrete Incomplete buffer that no continuation completes |
| Codec.UncappedAlwaysCompletes | src/protocol/frame_decoder.cpp:21-23 | without a cap below the 32-bit limit every Incomplete buffer can still become a frame |
| Codec.IncompleteCanOverflow | src/protocol/frame_decoder.cpp:33-36 | an Incomplete buffer can still be rejected if and only if filling its length field with 0xFF exceeds the cap |
| FrameStream.ParseIsCanonical | src/protocol/frame_decoder.cpp:27-55 | re-encoding the frames taken off a stream gives back exactly the bytes before the residue, and the residue is incomplete or oversized as reported |
| FrameStream.ParseEncoded | src/protocol/frame_decoder.cpp:27-55 | decoding concatenated encodings yields the encoded list and then whatever follows |
| FrameStream.ParseIsUnique | src/protocol/frame_decoder.cpp:27-55 | a stream reads as frames and an unfinished residue in exactly one way, and decoding finds it |
| FrameStream.FramingRoundTrip | src/protocol/frame_encoder.cpp:25-47 | any payload list within the cap survives encoding and decoding with no residue |
| FrameStream.ParseAppend | benchmarks/e2e_echo_benchmark.cpp:123-160 | input that arrives later extends what was decoded before and changes none of it |
| FrameStream.DecodeUntilIncomplete | benchmarks/e2e_echo_benchmark.cpp:138-160 | decoding off the front and erasing gives the frames, residue and verdict of one-shot decoding |
| FrameStream.ReceiveInChunks | benchmarks/e2e_echo_benchmark.cpp:123-160 | for every way of cutting a stream into chunks the frames, residue and oversize verdict are those of decoding it at once |
| FrameStream.MakeStream | benchmarks/decoder_benchmark.cpp:33-50 | the wire is the encoding of the benchmark's frames, or empty if a payload exceeds 1 MiB; a negative count throws |
| FrameStream.BenchmarkBytes | benchmarks/decoder_benchmark.cpp:34-44 | the first byte of each of these frames counts frames, byte i is i xor 0x5A |
| FrameStream.DecodeByOffset | benchmarks/decoder_benchmark.cpp:82-94 | advancing an offset sees the same payloads and stops at the same byte as erasing from the front |
| FrameStream.DecodeStreamBenchmark | benchmarks/decoder_benchmark.cpp:73-105 | the exact verdict for every size and count; the checks for an incomplete stream and a wrong frame count never fire |
| Connection.Connection.AppendRead | src/net/connection.cpp:24-26 | appends the received bytes to the read buffer |
| Connection.Connection.ConsumeRead | src/net/connection.cpp:28-35 | removes the given number of bytes from the front, or all if there are fewer |
| Connection.Connection.AppendWrite | src/net/connection.cpp:37-39 | appends to the write buffer |
| Connection.Connection.ConsumeWrite | src/net/connection.cpp:41-48 | removes the given number of bytes from the front, or all if there are fewer; they are then the bytes sent |
| Connection.Connection.ClearWrite | src/net/connection.cpp:50-52 | empties the write buffer |
| Connection.Connection.AppendFrame | src/protocol/frame_encoder.cpp:49-54 | encodes onto the connection's write buffer, or leaves it alone exactly if the payload exceeds the cap or 32 bits |
| Connection.Connection.SetState | src/net/connection.cpp:19-22 | sets the state; the type has no other states |
| SocketIo.ReceiveNonblocking | src/net/recv.cpp:22-72 | skips interrupts and nothing else and uses one more answer: a chunk, the end of the stream, would-block or a failure, and reports exactly that; exactly the bytes that the answers used deliver, cut to the scratch buffer, are appended to what was received |
| SocketIo.FlushWriteNonblocking | src/net/send.cpp:22-77 | skips interrupts and nothing else and uses one more answer: progress, would-block, or a failure, of which taking nothing is one, and reports exactly that; exactly as many bytes as the answers used take move from the front of the write buffer to the bytes sent; an empty buffer uses no answer |
| SelectPoller.SelectPoller.Upsert | src/net/select_poller.cpp:40-46 | sets one socket's interest, or refuses the invalid socket |
| SelectPoller.SelectPoller.Erase | src/net/select_poller.cpp:48-51 | forgets one socket |
| SelectPoller.SelectPoller.FillSets | src/net/select_poller.cpp:66-77 | the three descriptor sets hold exactly the sockets registered for each kind of readiness |
| SelectPoller.SelectPoller.Wait | src/net/select_poller.cpp:53-127 | bit by bit: a reported socket is registered, and it is reported readable, writable or exceptional exactly if that was asked for and it is; no socket is reported twice, and none with such a bit is missing unless the span is full |
| SelectPoller.SelectPoller.WriteFired | src/net/select_poller.cpp:106-126 | the loop that writes events: distinct sockets, exactly the bits that fired, and everything that fired unless the span is full |
| IdleTimeout.IdleTimeoutManager.RegisterConnection | src/net/idle_timeout_manager.cpp:7-9 | extends the history that the table is specified by |
| IdleTimeout.IdleTimeoutManager.UnregisterConnection | src/net/idle_timeout_manager.cpp:11-13 | extends the history that the table is specified by |
| IdleTimeout.IdleTimeoutManager.TouchActivity | src/net/idle_timeout_manager.cpp:15-20 | extends the history that the table is specified by |
| IdleTimeout.IdleTimeoutManager.PollExpired | src/net/idle_timeout_manager.cpp:22-37 | returns, without duplicates, exactly the tracked sockets whose entry is at least the threshold, in milliseconds, before the clock reading, in nanoseconds, and removes exactly those; none if the threshold is zero |
| IdleTimeout.TrackedIffInForce | src/net/idle_timeout_manager.cpp:7-37 | after any history a socket is tracked if and only if some registration of it was neither unregistered nor evicted since, and its entry is its latest register or touch |
| IdleTimeout.PollReportsTheIdle | src/net/idle_timeout_manager.cpp:22-37 | what a poll reports, in terms of the history alone |
| IdleTimeout.NoRegistrationReportedTwice | src/net/idle_timeout_manager.cpp:22-37 | between two reports of a socket it was registered again |
| IdleTimeout.ZeroDisablesEviction | src/net/idle_timeout_manager.cpp:23-25 | threshold zero never reports anything |
| EchoContract.OutputRefinesInput | benchmarks/e2e_echo_benchmark.cpp:87-161 | the loop's invariant for a connection is equivalent to: sent plus pending output is the encoding of the frames received, the residue is incomplete and every byte is accounted for; it makes what was sent an exact prefix of what was received |
| EchoContract.ReceiveBegins | benchmarks/e2e_echo_benchmark.cpp:123-138 | appending a chunk leads from the state between events to the state while frames are taken off |
| EchoContract.EchoOneFrame | benchmarks/e2e_echo_benchmark.cpp:138-155 | replacing a decoded frame by its encoding keeps that state, and the encoder never refuses |
| EchoContract.NothingLeftToDecode | benchmarks/e2e_echo_benchmark.cpp:138-145 | an incomplete buffer leads back to the state between events; an oversized one means the peer's stream is oversized |
| EchoServer.Server.constructor | benchmarks/e2e_echo_benchmark.cpp:187-194 | a registered listener and no connections satisfy the invariant |
| EchoServer.Server.FindSlotIndex | benchmarks/e2e_echo_benchmark.cpp:70-77 | the first slot with the handle, or none if and only if no slot has it |
| EchoServer.Server.RemoveSlot | benchmarks/e2e_echo_benchmark.cpp:79-85 | the last slot fills the gap, exactly one slot and one registration disappear, and handles stay distinct |
| EchoServer.Server.TryFlushWrites | benchmarks/e2e_echo_benchmark.cpp:87-111 | sends until the buffer is empty or the kernel would block, and aborts exactly where a send fails or takes nothing; exactly as many bytes as the kernel's answers take move from pending to sent; counts a completion exactly if a waiting reply was drained, and leaves write interest exactly if bytes remain |
| EchoServer.Server.EchoOne | benchmarks/e2e_echo_benchmark.cpp:147-159 | one decoded frame is replaced by its encoding and the bookkeeping restored; counts a completion exactly if everything was sent; aborts only for a send that has just failed, never for dispatch or encoding |
| EchoServer.Server.EchoFrames | benchmarks/e2e_echo_benchmark.cpp:138-160 | after it nothing decodable is left and the connection is byte-exact again; it aborts only for a send that has just failed or a stream that is really oversized, never for dispatch or encoding; completions grow by at most the frames decoded |
| EchoServer.Server.OneSlotChanged | benchmarks/e2e_echo_benchmark.cpp:113-161 | the server's invariant survives work on one slot that leaves that slot exact and booked |
| EchoServer.Server.ReceiveAndEcho | benchmarks/e2e_echo_benchmark.cpp:123-160 | one receive and its frames: would-block, hang-up and failure of recv are reported exactly where the first answer other than an interrupt says so, and otherwise a chunk was received; keeps the server's invariant, or aborts for that failure, a failed send or an oversized stream, with every client still sent an exact prefix of its input; what was received grows by exactly what the kernel delivered |
| EchoServer.Server.ValidMeansPrefixesSent | benchmarks/e2e_echo_benchmark.cpp:87-161 | under the invariant the connections accepted are the clients that the kernel has handed out, in order, and each of them, closed ones included, has been sent an exact prefix of its input |
| EchoServer.Server.ProcessConnectionRead | benchmarks/e2e_echo_benchmark.cpp:113-161 | reads on over interrupts and chunks; returns where the kernel would block; removes exactly this connection, buffers cleared, where the peer hangs up; aborts only where recv fails, a send fails or the stream is oversized; keeps the invariant and counts at most as many completions as frames arrived; what the connection received grows by exactly the chunks that the kernel delivered meanwhile, even if it aborts |
| EchoServer.Server.CloseSlot | benchmarks/e2e_echo_benchmark.cpp:130-134 | clears both buffers and removes the slot, which keeps the invariant; what the closed connection had sent is a prefix of what it received |
| EchoServer.Server.AcceptOne | benchmarks/e2e_echo_benchmark.cpp:218-225 | a new connection gets a handle that was not open, read interest and a slot, and the invariant is kept |
| EchoServer.Server.AcceptAll | benchmarks/e2e_echo_benchmark.cpp:217-226 | accepts everybody the kernel hands out, only adds new slots, stops where accept would block, and aborts exactly where it fails |
| EchoServer.Server.ServeSlot | benchmarks/e2e_echo_benchmark.cpp:235-251 | the slot found gets full service: it receives exactly what the kernel delivers, is read until it would block or hangs up, and afterwards has sent all output or is blocked; no other slot is touched, and an abort leaves every output an exact prefix |
| EchoServer.Server.HandleConnectionEvent | benchmarks/e2e_echo_benchmark.cpp:230-251 | touches and possibly removes only the connection with the event's handle, gives it full service, and logs how: the kernel's answers and the connection before and after |
| EchoServer.Server.HandleEvent | benchmarks/e2e_echo_benchmark.cpp:210-252 | new connections appear only through an open listener event, and a client event is served in full at the slot with its handle; it aborts only for a call that has just failed or an oversized stream, and goes on only if no call has failed |
| EchoRun.BetweenEvents | benchmarks/e2e_echo_benchmark.cpp:87-161 | in every state between events each live connection's output is the encoding of the frames it received and an exact prefix of its input, it is watched for reading and for nothing exceptional, write interest, the awaiting flag and a non-empty write buffer coincide, and the poller's keys are the listener, watched for reading only, and the live handles |
| EchoRun.NextDispatched | benchmarks/e2e_echo_benchmark.cpp:210-251 | the connection found for the next event is the one that was polled |
| EchoRun.HandleNext | benchmarks/e2e_echo_benchmark.cpp:210-251 | the next event of a batch is served in full by the connection that was polled |
| EchoRun.HandleBatch | benchmarks/e2e_echo_benchmark.cpp:210-252 | no stale events: every client event of a batch is served in full by exactly the connection that was polled, although handles can be closed and accepted again within the batch; the two index checks that would skip it never do |
| EchoRun.Poll | src/net/select_poller.cpp:53-127 | what waiting reports is such a batch, right bit by bit and nothing missing unless the span is full |
| EchoRun.RunTurn | benchmarks/e2e_echo_benchmark.cpp:204-252 | one turn reports exactly what is ready, up to the span, and serves every connection it reports in full: all that the kernel delivers is received, until it would block or the peer hangs up, and all output is sent, unless it would block |
| EchoRun.RunTurns | benchmarks/e2e_echo_benchmark.cpp:199-253 | the invariant holds after every number of turns; every turn reports exactly what is ready, up to the span, and serves every connection it reports in full; the loop ends early exactly on stop with nobody connected; it aborts only for a failed wait, another call that has just failed or an oversized stream, and goes on only while no call fails |
| EchoRun.CloseDown | benchmarks/e2e_echo_benchmark.cpp:255-261 | nothing stays registered, and every connection ever accepted was sent an exact prefix of its input |
| EchoRun.RunServer | benchmarks/e2e_echo_benchmark.cpp:163-262 | whole runs from an empty server: however they end, aborts included, the connections accepted are the clients that the kernel handed out, in order, and every one of them was sent an exact prefix of its input; it aborts only for a call that has failed or a stream that is oversized, so not at all if the kernel never fails, no wait fails and no client announces too much; a normal end leaves nothing registered and no descriptor open |
| EchoRun.NothingJustified | benchmarks/e2e_echo_benchmark.cpp:113-253 | if the kernel reports no failure, hands out only descriptors that it may and nobody announces too much, no reason to abort can arise |
| Lifecycle.PhasesOnlyAdvance | src/core/lifecycle.cpp:7-57 | over every run of any number of threads, with spurious failures, phases only go forward and each transition has exactly one winner |
| Lifecycle.ReturnsAndFinalAssert | src/core/lifecycle.cpp:7-57 | request_shutdown returns only when the phase is no longer Running, and the final assertion always holds |
| Lifecycle.DrainingOrStopped | src/core/lifecycle.cpp:18-46 | whoever evaluates one of the two assertions of Draining finds Draining or Stopped |
| Lifecycle.RequestAssertHoldsIff | src/core/lifecycle.cpp:18 | the exact condition: thread i finds Draining there in every run if and only if no other thread submits drained reports |
| Lifecycle.AdvanceAssertHoldsIff | src/core/lifecycle.cpp:46 | the exact condition: every thread finds Draining there in every run if and only if at most one thread submits drained reports |
| Lifecycle.RequestAssertCanFail | src/core/lifecycle.cpp:18 | for any two different threads, a run in which the assertion in request_shutdown is false |
| Lifecycle.AdvanceAssertHolds | src/core/lifecycle.cpp:46 | with one advancing thread, as documented, the assertion before the swap always holds |
| Lifecycle.AdvanceAssertCanFail | src/core/lifecycle.cpp:46 | for any two different advancing threads, a run in which it is false |
| Lifecycle.ShutdownCoordinator.RequestShutdown | src/core/lifecycle.cpp:7-22 | undisturbed, moves Running to Draining and nothing else, however often the weak swap fails |
| Lifecycle.ShutdownCoordinator.TryAdvanceToStoppedIfDrained | src/core/lifecycle.cpp:36-57 | undisturbed, moves Draining to Stopped exactly if the listener has stopped, nobody is connected and no write is pending |
| Lifecycle.UndisturbedAdvance | src/core/lifecycle.cpp:36-57 | the named steps of thread i's call with report r move Draining to Stopped exactly under the same three conditions, as the object's call does |
| Lifecycle.UndisturbedRequest | src/core/lifecycle.cpp:7-22 | the same for request_shutdown |
| GracefulServer.AnyPendingWrites | tests/integration/graceful_shutdown_tests.cpp:153-160 | true exactly if some slot has output pending |
| GracefulServer.Graceful.AcceptNext | tests/integration/graceful_shutdown_tests.cpp:214-219 | one accept, before which a request for shutdown may come in, and the phase in which it admits a client |
| GracefulServer.Graceful.AcceptAll | tests/integration/graceful_shutdown_tests.cpp:213-220 | the accept loop admits everybody the kernel hands out and never looks at the phase: how many, in which phases, and which phase it leaves behind; it aborts exactly where accept fails |
| GracefulServer.Graceful.HandleGated | tests/integration/graceful_shutdown_tests.cpp:206-245 | a listener event whose gate sees the phase outside Running admits nobody; otherwise it admits exactly the clients the kernel hands out, in exactly the phases that the requests coming in between produce |
| GracefulServer.AdmitsLateIff | tests/integration/graceful_shutdown_tests.cpp:207-220 | the exact condition for admitting somebody outside Running: the event is readable, the gate sees Running, and a request comes in after it and before a client that the kernel still hands out |
| GracefulServer.LateIffRequested | tests/integration/graceful_shutdown_tests.cpp:213-220 | some admission of an accept loop entered in Running is late if and only if a request comes in before one of them |
| GracefulServer.AdmitWhileDraining | tests/integration/graceful_shutdown_tests.cpp:207-220 | a run in which a client is accepted while the phase is Draining |
| GracefulServer.Graceful.HandleNext | tests/integration/graceful_shutdown_tests.cpp:204-245 | the next event of a batch is served in full by the connection that was polled |
| GracefulServer.Graceful.HandleBatch | tests/integration/graceful_shutdown_tests.cpp:203-246 | no stale events here either: full service by the connection that was polled; and no new connection once the listener is unregistered or the phase has left Running before the batch |
| GracefulServer.Graceful.StartTick | tests/integration/graceful_shutdown_tests.cpp:194-197 | the listener is unregistered exactly if the phase has been seen outside Running |
| GracefulServer.Graceful.TryAdvance | tests/integration/graceful_shutdown_tests.cpp:248-251 | the phase becomes Stopped exactly if it is Draining, the listener is unregistered and nobody is connected |
| GracefulServer.Graceful.Tick | tests/integration/graceful_shutdown_tests.cpp:193-252 | one turn, with shutdown requested by other threads before any look at the phase and any accept: the invariant is kept, everything reported is served in full, and Stopped is reached in exactly the tick in which the last connection has left |
| GracefulServer.Graceful.Run | tests/integration/graceful_shutdown_tests.cpp:193-252 | over whole runs: Stopped if and only if unregistered with nobody connected, and only as the last state; after any state outside Running the listener is unregistered; from then on the live set only shrinks |
| GracefulServer.RunServer | tests/integration/graceful_shutdown_tests.cpp:162-263 | a clean end means phase Stopped, no connection, no registration and no open descriptor; the closing assertion fails only if every turn before the deadline was taken and the phase is still not Stopped; it crashes only for a failed wait, another call that has failed or an oversized stream, so not at all if the kernel never fails, no wait fails and no client announces too much; however it ends, the connections accepted are the clients handed out and output is byte-exact for each; a coordinator that is already stopped gives a clean end at once |
| GracefulServer.RunLoop | tests/integration/graceful_shutdown_tests.cpp:193-252 | the same for the loop alone: it ends in Stopped with nobody connected or with every turn taken |

## Left out

- System calls, Winsock branches and address lookup: recv, send, accept and select are scripts of arbitrary answers; a received chunk fits the scratch buffer, a send takes at most what it is given, accept returns a handle that is not open, and select only clears bits it was given. Binding the listener and making sockets non-blocking are assumed to have succeeded or show up as a failed accept.
- Weak memory: atomics are sequentially consistent.
- Allocation failure, reserve and capacity (except that reserving a negative number of frames throws), 32-bit `size_t`, the overflow of counters, the descriptor limit of `fd_set`, and `EventMask` as an integer (it is a record of three bits).
- Codec.IntegerRoundTrip: the codec computes on octets by division and remainder; `MachineWord` proves that shifts, masks and byte swaps of 32-bit words agree with it, a word's number being read as two 16-bit halves.
- The dispatcher: in the pool an arbitrary total function to a response or an error, with exceptions already mapped; in the echo loop the identity.
- WorkerPool.ClientStep: the pool's interleavings are a step system on values; the object in `PoolQueues` runs one critical section at a time, undisturbed.
- PoolShutdown.ShutdownMissesResultWaiterIff: speaks of runs in which nobody pops, since a pop notifies the worker.
- GracefulServer.RunServer: models the build with assertions; without them the deadline goes on to the closing loop, which is not modelled.
- PoolJoin.ShutdownCanHangIff: speaks of runs without spurious wake-ups, in which the client's next call is shutdown; after it, and for all other clients, any calls are allowed.
- PoolShutdown.ShutdownMissesTaskWaiterIff: and the other hang results count runs without spurious wake-ups, which would free a blocked worker.
- PoolProgress.RunsAreBounded: excludes new calls and spurious wake-ups, of which there can be any number.
- Codec.IncompleteCanComplete: the unrestricted claim that every Incomplete buffer can be completed is false, hence the condition.
- Connection.Connection.AppendFrame: works on a copy of the write buffer and stores it back, where the source passes the vector by reference.
- EchoServer.Server.RemoveSlot: slots are objects whose references move, where the source moves values; closing the socket is part of removal.
- EchoServer.Server.ProcessConnectionRead: split into helper methods for one receive, one closing and the decode loop; the kernel's answers are one script for all connections, used in the order of the calls, so which connection an answer belongs to is known only from the log of events served.
- EchoServer.Server.TryFlushWrites: how many completions a pipelined client causes depends on the sends; only the bounds by frames are stated.
- GracefulServer.Graceful.Tick: a request takes effect before the loop's next look at the phase or its next accept, which is where it can be seen; requests that arrive inside one call of the coordinator are covered by the step system in `Lifecycle`. The loop follows the structure of the end-to-end copy, because the integration test performs its encoding inside an assertion.
- Wall-clock time: a deadline is the number of turns, a timeout is a select that reports nothing.
- IdleTimeout.IdleTimeoutManager.PollExpired: times are unbounded integers.
- Logging, metrics, configuration, the resource wrappers around sockets, client threads, and a connection between the worker pool and the event loop, which the repository does not have.
