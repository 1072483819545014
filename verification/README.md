# Nanvix: message path and host filesystem daemon

A Dafny model of the parts of Nanvix that are stateful protocols, with proofs of what they keep over whole runs.

| file | what it models |
|---|---|
| `Framing.dfy` | the frames exchanged with the system VM: encoders, and the decoder that is fed by socket reads of any size |
| `Pipeline.dfy` | I/O thread, memory thread and vCPU as steps of one transition system, with the queues, the credit register and the message counters between them |
| `PipelineThreads.dfy` | the code of the three threads, other threads running between any two shared accesses: each method extends the system's schedule by exactly the steps of its own thread that its contract names |
| `Orchestrator.dfy` | the orchestrator as a flat machine, and the exact language of what it sends |
| `OrchestratorThread.dfy` | its code, nested loops over channels: each method extends the machine's run on exactly what happens: what it takes off the channels, channels closed once empty, how callbacks and sends end, and the timeout when it is due |
| `FlushHandshake.dfy` | the orchestrator composed with the I/O thread's control arm over bounded FIFO channels |
| `LongRequests.dfy` | host filesystem requests in parts: wire formats, cutting, and the daemon's assembler |
| `LongResponses.dfy` | multi-part `readlink` responses and the queue behind the first part |
| `ResponseAssembly.dfy` | the virtual filesystem daemon's assembly of those parts: one slot, sorted, complete on count |
| `FdTable.dfy` | remote file descriptors: the probing allocator and the cached directory listings |
| `DirListings.dfy` | directory reading with the cache against listing the directory each time |
| `FileRequests.dfy` | reads, writes, seeks and truncations over files and cursors, with a host that may refuse or do less than asked |
| `HostFsForwarding.dfy` | the standalone I/O handler's queueing of requests and the errors that it answers itself |
| `StrandedRequests.dfy` | that handler and the worker's assembler together: what refused parts of one request do to the next |
| `StdinBridge.dfy` | the standalone I/O handler's buffering of standard input |
| `Elf.dfy` | the ELF32 footprint scan and loader |
| `Klog.dfy` | the kernel log buffer |
| `Bytes.dfy`, `Utf8.dfy`, `Channels.dfy`, `Wrappers.dfy` | little-endian fields, well-formed text, the channel capacity, `Option` |

State that the source updates in place is a class. Each of its methods is proved equal to a function on values (`Receive`, `Handling`, `Allocating`, `DoRead`, `Forward`, ...), and the theorems over whole runs are lemmas about those functions. Concurrent code is a transition system whose schedules are all interleavings of atomic steps; where the source has sequential thread code as well, a class refines the system.

## Where the code and what it says differ

- `handle_long_part` means to fall back to the header of the part at hand when no header has been recorded, but `recorded_header` never reports that case: it defaults to the open header. An error on a first part whose count is zero or too large is therefore answered as an open (`ErrorOnFirstPart`, `ErrorHeaderCounterexample`).
- The standalone handler's two lists of part headers leave out the path-stat request, so one refused path-stat request can be answered several times, with identifiers that are none (`AnswersOnceIff`).
- A refused single request that comes between the parts of a long request makes the standalone handler forget the long request, whose later refusal is then not answered (`AnsweredBetweenSinglesIff`, `ForgottenRequest`).
- When the worker's queue accepts a beginning of a long request and refuses the rest, the worker keeps waiting for it. The next long request is then lost: its first part is answered as the first request, which is thereby answered a second time, and its own identifier never is (`NextIsDispatchedIff`, `StrandedAnswers`).
- The comment on `send_hostfs_error` says that every completion handler detects the failure. A stat does not: its completion looks at a status field, which is zero in the error, so that it reports an empty regular file; and a directory read takes the error for the end of the directory (`ErrorIsSeenIff`).
- The virtual filesystem daemon completes a multi-part response on the number of parts alone, so that a part received twice, or one of another response, stands in for one that is missing (`CompletesRightlyIff`, `RepeatCounterexample`). It indexes each payload by the length that its part declares, and so goes down if that is more than a part has (`GoesDownIff`).
- A write at an offset to a file opened for appending lands at the end of the file (`PositionalWriteIsPwriteIff`, `AppendCounterexample`).
- The comment on `readdir_at` says that the cache is never invalidated; five operations invalidate it. Creating opens, writes and truncations do not (`CacheAgrees`, `TouchIsHarmlessIff`, `CreatingOpenIsStaleIff`, `StaleReadCounterexample`).
- A bulk length prefix of zero leaves the decoder reading into an empty slice, which it takes for a closed socket (`ZeroLengthPrefixWedges`). No encoder produces one.
- An empty chunk on the standard input channel is indistinguishable from the end of input (`EmptyFrameIff`).
- The orchestrator's arm for a flush acknowledgement outside a flush wait is dead code, as its comment hopes (`DispatcherNeverSeesAck`); so is the allocator's second "too many open file descriptors" (`FdTable.FdTable.Alloc`).

## Model

| member | source | states |
|---|---|---|
| `Framing.SystemVmWriter.ForwardMessage` | src/uservm/src/io_thread.rs:58-81 | appends one frame type byte and the message image to what is on the wire, and nothing else |
| `Framing.SystemVmWriter.ForwardBulk` | src/uservm/src/io_thread.rs:90-120 | refuses exactly the payloads whose length does not fit 32 bits, leaving the wire as it was; otherwise the length prefix is that of header and data together |
| `Framing.SystemVmWriter.ForwardTransfer` | src/uservm/src/io_thread.rs:124-133 | puts the encoding of the frame on the wire if and only if the frame is encodable |
| `Framing.WireLayout` | src/uservm/src/io_thread.rs:58-120 | where type, length, chunk header and data lie in an encoded frame; the length is little-endian and counts the chunk header |
| `Framing.Room` | src/uservm/src/io_thread.rs:249-258 | the slice offered to the socket is empty only for a bulk payload of announced length zero |
| `Framing.Receive` | src/uservm/src/io_thread.rs:260-347 | any read that fits the offered slice, an empty one included, leaves the decoder in a valid state: no fill length ever passes its buffer |
| `Framing.InboundReader.constructor` | src/uservm/src/io_thread.rs:209-230 | the loop starts between frames with nothing delivered |
| `Framing.InboundReader.OnRead` | src/uservm/src/io_thread.rs:260-347 | the buffers, fill lengths and phase implement the value-level decoder on every read; an empty read ends the loop with nothing more delivered |
| `Framing.InboundReader.OnFrameType` | src/uservm/src/io_thread.rs:269-293 | refines the decoder's step on a frame type byte, unknown types included |
| `Framing.InboundReader.OnMessage` | src/uservm/src/io_thread.rs:294-316 | refines the decoder's step on message bytes; a full buffer is delivered as one message |
| `Framing.InboundReader.OnBulkLength` | src/uservm/src/io_thread.rs:317-326 | refines the decoder's step on the length prefix, with a payload buffer of exactly that size |
| `Framing.InboundReader.OnBulkPayload` | src/uservm/src/io_thread.rs:327-345 | refines the decoder's step on payload bytes; a payload shorter than a chunk header is an error |
| `Framing.ReceiveDeliversOne` | src/uservm/src/io_thread.rs:269-345 | a read completes at most one frame, and none when it fails |
| `Framing.FailsIff` | src/uservm/src/io_thread.rs:260-345 | a read ends the loop with an error if and only if it is empty, its byte is not a frame type, or it completes a payload shorter than a chunk header; nothing is delivered then |
| `Framing.FullReadEndsField` | src/uservm/src/io_thread.rs:249-258 | the slice offered is exactly what is missing of the field: a read ends the field if and only if it fills the slice |
| `Framing.FeedIsBytewise` | src/uservm/src/io_thread.rs:248-347 | reading in fragments refines the decoder that takes one byte at a time |
| `Framing.FragmentationIndependence` | src/uservm/src/io_thread.rs:248-347 | two ways of cutting the same bytes, well formed or not, end in the same state with the same frames and the same failure |
| `Framing.FeedKeepsBytes` | src/uservm/src/io_thread.rs:248-347 | while it has not failed, the bytes read are the encodings of the frames delivered followed by the bytes of the frame in progress |
| `Framing.LiveStates` | src/uservm/src/io_thread.rs:248-347 | for every state and frame list: the decoder holds that state having delivered those frames if and only if the stream is their encoding followed by that state's bytes |
| `Framing.RoundTrip` | src/uservm/src/io_thread.rs:58-347 | a fragmented stream leaves the decoder between frames with `fs` delivered if and only if the stream is the encoding of `fs` |
| `Framing.RefusedStreams` | src/uservm/src/io_thread.rs:248-347 | a fragmented stream is refused with `fs` delivered if and only if it is the encoding of `fs` followed by an unknown frame type or by a bulk frame too short for its chunk header |
| `Framing.WellFormedNeverWedges` | src/uservm/src/io_thread.rs:248-266 | at any point of an encoded stream the decoder is alive and offers a non-empty slice |
| `Framing.PrefixDeliversPrefix` | src/uservm/src/io_thread.rs:248-347 | at any point of an encoded stream the frames delivered are a prefix of those sent |
| `Framing.ZeroLengthPrefixWedges` | src/uservm/src/io_thread.rs:256-326 | the offered slice is empty if and only if the stream is whole frames and then a bulk length prefix of zero; every next read then ends the loop |
| `Pipeline.StepKeepsInv` | src/uservm/src/memory_thread.rs:121-172 | every atomic step of any of the three threads keeps conservation, exact credits, exact counters and the decoder's relation to the bytes read |
| `Pipeline.IoStepKeepsInv` | src/uservm/src/io_thread.rs:260-347 | the I/O thread's steps, decode, count, then send, keep the invariant; the peer closing ends the thread, and a send to a memory thread that is gone ends it with the frame |
| `Pipeline.MemStepConserves` | src/uservm/src/memory_thread.rs:135-164 | the relay neither loses, repeats nor reorders a frame |
| `Pipeline.SendForwards` | src/uservm/src/memory_thread.rs:156-159 | what the memory thread sends goes behind all that it has forwarded, and was next among what it had still to forward |
| `Pipeline.MemStepKeepsAccounts` | src/uservm/src/memory_thread.rs:154-219 | the relay's steps keep credits and counters exact and never trip its sanity check |
| `Pipeline.VcpuStepConserves` | src/uservm/src/lib.rs:674-753 | the input handler neither loses, repeats nor reorders a frame |
| `Pipeline.VcpuStepKeepsAccounts` | src/uservm/src/lib.rs:878-932 | the input handler's steps keep credits and counters exact and never trip its sanity checks |
| `Pipeline.ReachableInv` | src/uservm/src/lib.rs:653-769 | the invariant holds in every state that any interleaving reaches |
| `Pipeline.NoThreadFails` | src/uservm/src/vmm/microvm/guest.rs:761-802 | in every interleaving no sanity check fires, the credit register neither overflows nor underflows, credits are the undelivered frames but for the one just forwarded, and a guest that saw a credit finds a frame queued |
| `Pipeline.CounterChain` | src/uservm/src/counters.rs:62-136 | received by the VMM <= input calls <= received by the memory thread <= received by the I/O thread <= decoded; and guest memory, the vCPU's hand, both queues and the other hands, in order, are the decoded frames |
| `Pipeline.WireToGuest` | src/uservm/src/memory_thread.rs:121-172 | whatever the fragmentation and the interleaving, the guest has a prefix of the frames that the peer encoded |
| `Pipeline.SomeThreadCanMove` | src/uservm/src/lib.rs:522-769 | no deadlock: while a credit is left, or a frame is undelivered and the memory thread lives, some thread has a step of its own |
| `Pipeline.RestMeansDelivered` | src/uservm/src/lib.rs:522-769 | at rest everything forwarded is delivered and no credit is left, whichever threads are gone; with the memory thread alive every decoded frame is delivered |
| `Pipeline.InternalStepsDoWork` | src/uservm/src/memory_thread.rs:121-172 | every such step brings rest closer, so no schedule runs for ever without input |
| `Pipeline.EveryFrameArrives` | src/uservm/src/lib.rs:653-769 | once all bytes of `fs` have been read, every schedule is bounded and the guest has a prefix of `fs`; when the schedule cannot go on and the memory thread lives, it has exactly `fs` |
| `PipelineThreads.Vm.constructor` | src/uservm/src/counters.rs:53-60 | the threads start in the system's initial state, on the empty schedule |
| `PipelineThreads.ExtensionLeads` | src/uservm/src/memory_thread.rs:121-172 | what a method adds to the schedule leads, as a schedule, from the state before it to the state after it |
| `PipelineThreads.StepFrame` | src/uservm/src/lib.rs:522-769 | what each thread relies on between its own steps, no step of another thread disturbs: its hand, its counters, the order of what it has passed on, the frames waiting for it, the credits given |
| `PipelineThreads.Vm.Others` | src/uservm/src/lib.rs:522-769 | any run of the other threads extends the schedule without a step of this one and keeps what this one relies on |
| `PipelineThreads.Vm.OnSocketRead` | src/uservm/src/io_thread.rs:260-347 | extends the schedule by the I/O thread's read and, for a complete frame, count and send; the frame then follows all that was handed over, or is in hand because the channel is full, or is lost because the memory thread is gone; an empty read, like any that fails, ends the thread |
| `PipelineThreads.Vm.ForwardToMemoryThread` | src/uservm/src/io_thread.rs:312-343 | extends the schedule by count and then send; the counter is one more and the frame is handed over unless the channel is full or its receiver gone |
| `PipelineThreads.Vm.OnMessageReceivedFromSystemVm` | src/uservm/src/io_thread.rs:499-501 | one frame more counted and none handed over yet |
| `PipelineThreads.Vm.SendToMemoryThread` | src/uservm/src/io_thread.rs:314-341 | hands the frame over, keeps it because the channel is full, or exits with it because the receiver is gone |
| `PipelineThreads.Vm.Relay` | src/uservm/src/memory_thread.rs:135-164 | takes the frame that was first in the queue, if any, and extends the schedule by receive, count, load, check, send and credit in this order; the counter is one more, the frame follows all that was forwarded and one credit is given, unless the channel is full, when the turn stops with the frame in hand |
| `PipelineThreads.Vm.ReceiveFromIoThread` | src/uservm/src/memory_thread.rs:135-138 | takes the first frame of the queue exactly if there is one, and forwards nothing |
| `PipelineThreads.Vm.ForwardToVcpu` | src/uservm/src/memory_thread.rs:156-163 | extends the schedule by the send and then the credit, or by neither because the channel is full; frames forwarded and credits given grow by one each |
| `PipelineThreads.Vm.SendToVcpu` | src/uservm/src/memory_thread.rs:156-159 | the frame follows all that was forwarded and no credit is given yet; or the channel is full and nothing has changed |
| `PipelineThreads.Vm.OnMessageReceivedFromIoThread` | src/uservm/src/memory_thread.rs:196-219 | counts the frame once; the sanity check holds even if the other threads run between its two loads; nothing is forwarded and no credit given |
| `PipelineThreads.Vm.AddCredit` | src/uservm/src/vmm/microvm/guest.rs:761-776 | credits given out, consumed or not, are one more: adding one always succeeds, the overflow branch cannot be taken |
| `PipelineThreads.Vm.GuestRead` | src/kernel/src/stdio.rs:91-118 | a guest that polls with a credit, and only then, gets one frame, the next one decoded, through exactly the nine steps of its thread; otherwise nothing changes for it |
| `PipelineThreads.Vm.Poll` | src/kernel/src/stdio.rs:95-108 | the guest goes on exactly if it saw a credit |
| `PipelineThreads.Vm.Input` | src/uservm/src/lib.rs:653-769 | one input call delivers one frame, the next one decoded, and counts one call and one message |
| `PipelineThreads.Vm.BlockingRecv` | src/uservm/src/lib.rs:674 | the queue was not empty and its first frame is taken, whatever the other threads do meanwhile: receiving does not block |
| `PipelineThreads.Vm.OnInputFunctionCalled` | src/uservm/src/lib.rs:878-901 | counts the call once, and the sanity check of input calls against the memory thread's counter holds under interference |
| `PipelineThreads.Vm.OnMessageReceivedFromMemoryThread` | src/uservm/src/lib.rs:911-932 | counts the message once, and the sanity check of messages received against input calls holds under interference |
| `PipelineThreads.Vm.ConsumeCredit` | src/uservm/src/vmm/microvm/guest.rs:787-802 | the frame is the last in guest memory, there was a credit and consuming it succeeds |
| `Orchestrator.StepTells` | src/uservm/src/orchestrator.rs:243-692 | every step keeps the trace the rendering of a story that the program point and the VM state determine |
| `Orchestrator.TellFacts` | src/uservm/src/orchestrator.rs:397-692 | one more message keeps the round structure, the snapshot rule and the resume count |
| `Orchestrator.TellRenders` | src/uservm/src/orchestrator.rs:397-692 | continuing a story by a message renders as the trace with that message appended |
| `Orchestrator.TraceFacts` | src/uservm/src/orchestrator.rs:243-692 | in every run the I/O thread gets whole rounds of flush output, flush input, paused, then a proper prefix of one or the shutdown; snapshots are only asked for between a completed pause and the next resume; resumes exceed completed pauses by at most one |
| `Orchestrator.TraceLanguage` | src/uservm/src/orchestrator.rs:243-692 | the traces over all runs are exactly the renderings of stories: optional restore, pauses with their snapshots and resumes, and an end |
| `Orchestrator.RunRenders` | src/uservm/src/orchestrator.rs:243-692 | what any run sends renders some story |
| `Orchestrator.ShutdownOnlyCloses` | src/uservm/src/orchestrator.rs:243-365 | once shutting down, whether confirmation, closed channel or timeout ends the wait, only the memory thread's shutdown and then the I/O thread's are sent, and a finished run has sent both |
| `Orchestrator.ShutdownRuns` | src/uservm/src/orchestrator.rs:243-365 | from a shutdown command taken in the loop, in any state of the VM, every run waits and then sends the two shutdown messages, and fails if and only if a send fails |
| `Orchestrator.FailsIff` | src/uservm/src/orchestrator.rs:243-692 | the orchestrator fails exactly on a failed callback or send, a response other than the one a protocol waits for, one other than a shutdown in the loop, or a channel that closes on a protocol |
| `Orchestrator.CleansUpIff` | src/uservm/src/orchestrator.rs:244-365 | the clean-up is reached exactly by the vCPU's shutdown, a closed channel in the loop, or a timeout or the vCPU's closed channel in the shutdown wait |
| `Orchestrator.FailedForCause` | src/uservm/src/orchestrator.rs:243-692 | a run that has failed has failed at its last input, and for one of those causes |
| `Orchestrator.ReachStory` | src/uservm/src/orchestrator.rs:243-692 | every story is told by some run |
| `OrchestratorThread.Thread.constructor` | src/uservm/src/orchestrator.rs:202-232 | a new orchestrator is at the machine's initial state, with nothing received; the rest of its environment is arbitrary |
| `OrchestratorThread.Thread.NextCommand` | src/uservm/src/orchestrator.rs:273-283 | a receive takes the first command off the channel, and the machine takes in exactly that one |
| `OrchestratorThread.Thread.NextResponse` | src/uservm/src/orchestrator.rs:293-301 | a receive takes the first response off the channel, and the machine takes in exactly that one |
| `OrchestratorThread.Thread.Send` | src/uservm/src/orchestrator.rs:315-321 | a send appends one message exactly if the environment lets it succeed, and otherwise none |
| `OrchestratorThread.Thread.LoadProtocol` | src/uservm/src/orchestrator.rs:411-432 | succeeds exactly if both callbacks and the send do; then one resume was sent and the VM runs, otherwise nothing was sent and the state is as it was |
| `OrchestratorThread.Thread.SnapshotProtocol` | src/uservm/src/orchestrator.rs:443-484 | succeeds exactly if the command can be sent and the next response from the vCPU confirms the snapshot; at most that one command was sent and the VM's state is as it was |
| `OrchestratorThread.Thread.PauseProtocol` | src/uservm/src/orchestrator.rs:584-636 | succeeds exactly if the callback and the three sends do, the vCPU's next response is that it has paused, and an acknowledgement is among the commands to come; flush output, flush input and paused were sent, and on failure a beginning of these |
| `OrchestratorThread.Thread.FlushProtocol` | src/uservm/src/orchestrator.rs:620-636 | succeeds exactly if the three sends do and an acknowledgement is among the commands to come; flush output, flush input and paused were sent, and on failure a beginning of these |
| `OrchestratorThread.Thread.ReceiveSystemCallFlushed` | src/uservm/src/orchestrator.rs:647-671 | the wait succeeds if and only if an acknowledgement is among the commands still to come, whatever is queued before it |
| `OrchestratorThread.Thread.ResumeProtocol` | src/uservm/src/orchestrator.rs:682-692 | succeeds exactly if the callback and the send do; the VM runs if and only if the resume command has gone out, and on failure nothing was sent and the state is as it was |
| `OrchestratorThread.Thread.TryReceiveFromIoThread` | src/uservm/src/orchestrator.rs:397-533 | a command fails exactly if it applies and its protocol does; a shutdown, a start, an acknowledgement and any command that does not apply never fail. Otherwise it has its effect on state and messages, and on failure a beginning of those messages was sent |
| `OrchestratorThread.Thread.TryReceiveFromVcpu` | src/uservm/src/orchestrator.rs:535-573 | only the vCPU's shutdown ends the loop normally; any other response is an error |
| `OrchestratorThread.Thread.WaitForShutdown` | src/uservm/src/orchestrator.rs:334-365 | ends on the vCPU's confirmation, on its channel closed, which it is only without a confirmation among the responses to come, or on the timeout, only after as many messages as that allows; each leads to the clean-up |
| `OrchestratorThread.Thread.RunLoop` | src/uservm/src/orchestrator.rs:244-311 | the nested loops extend the machine's run and what was sent, and end on the vCPU's shutdown, a closed and empty channel or the timeout; a propagated error skips the clean-up |
| `OrchestratorThread.Thread.Turn` | src/uservm/src/orchestrator.rs:273-311 | a turn takes one message or finds a channel closed and empty; it goes on exactly after a command that works, and ends the loop normally exactly on the vCPU's shutdown or a closed channel |
| `OrchestratorThread.Thread.CleanUp` | src/uservm/src/orchestrator.rs:313-323 | succeeds exactly if both sends do, and then the two shutdown messages are the last |
| `OrchestratorThread.Thread.Run` | src/uservm/src/orchestrator.rs:243-323 | whatever arrives and however callbacks, sends and the timeout go, the code takes the machine through a run on exactly that, and what it sends renders a story; if it returns normally the two shutdown messages are last and something that ends the loop came before them |
| `FlushHandshake.SendKeepsInv` | src/uservm/src/orchestrator.rs:584-636 | a send to the I/O thread keeps requests and acknowledgements balanced |
| `FlushHandshake.ReceiveKeepsInv` | src/uservm/src/orchestrator.rs:647-671 | a receive keeps them balanced, whichever wait it ends |
| `FlushHandshake.IoStepKeepsInv` | src/uservm/src/io_thread.rs:420-480 | the I/O thread's control arm, relayed commands and sudden exit keep them balanced |
| `FlushHandshake.ReachableInv` | src/uservm/src/orchestrator.rs:584-671 | the balance holds in every reachable state of the composition |
| `FlushHandshake.OneFlushInFlight` | src/uservm/src/orchestrator.rs:584-671 | with the I/O thread alive, flush requests and acknowledgements in flight are one during a flush wait and none otherwise; each pause consumes the acknowledgement of its own request |
| `FlushHandshake.DispatcherNeverSeesAck` | src/uservm/src/orchestrator.rs:497-502 | an acknowledgement is only ever received by the flush wait |
| `FlushHandshake.ResponsesNeverWait` | src/uservm/src/orchestrator.rs:620-636 | at most three responses are ever queued for the I/O thread, so the two bounded channels cannot block the threads on each other |
| `FlushHandshake.FinishedIoIsGone` | src/uservm/src/io_thread.rs:445-470 | once the orchestrator has finished and all it sent is taken, the I/O thread is gone |
| `FlushHandshake.FlushWaitMoves` | src/uservm/src/orchestrator.rs:647-671 | a flush wait is never stuck: some step brings the acknowledgement closer, or the wait ends because the I/O thread is gone |
| `LongRequests.Handling` | src/daemons/hostfsd/src/handler.rs:220-274 | for any part, the daemon stays silent exactly when a request is left in flight, and then parts received = next part number, at least one, below the total, which is capped, with a bounded buffer |
| `LongRequests.AcceptedPart` | src/daemons/hostfsd/src/handler.rs:2058-2169 | the awaited part is accepted and goes at the end of what is in flight; the last one dispatches it all |
| `LongRequests.OnlyAcceptedParts` | src/daemons/hostfsd/src/handler.rs:2058-2169 | any part that is not an error was the awaited one: same header, same total, next number, within the buffer |
| `LongRequests.BufferIsRecent` | src/daemons/hostfsd/src/handler.rs:2058-2169 | over any stream of parts, what is buffered is what the most recent arrivals carried, consecutively from part 0 of one request |
| `LongRequests.DispatchIsConcatenation` | src/daemons/hostfsd/src/handler.rs:220-274 | over any stream of parts, a request is only dispatched as the concatenation of the last n arrivals, being parts 0 to n-1 of n under one header |
| `LongRequests.ErrorNamesRequestInFlight` | src/daemons/hostfsd/src/handler.rs:236-262 | an error resets the assembler and names the request in flight, by its first four bytes if they have arrived |
| `LongRequests.ErrorOnFirstPart` | src/daemons/hostfsd/src/handler.rs:236-262 | an error with nothing in flight carries the right response header if and only if the part count was acceptable or the request is an open |
| `LongRequests.ErrorHeaderCounterexample` | src/daemons/hostfsd/src/handler.rs:2036-2039 | a rename whose first part declares no parts is answered as an open |
| `LongRequests.CutRoundTrip` | src/daemons/vfsd/src/hostfs.rs:139-175 | any body of 1 byte up to the buffer limit, cut by the sender, passes an idle assembler: silence until the last part, then the body |
| `LongRequests.DeserializeOnePath` | src/libs/hostfs-api/src/long_msg.rs:285-335 | a one-path body decodes to its request exactly if the path is text |
| `LongRequests.DeserializeWordAndPath` | src/libs/hostfs-api/src/long_msg.rs:259-362 | an open or mkdir body decodes to its request exactly if the path is text |
| `LongRequests.DeserializeTwoPaths` | src/libs/hostfs-api/src/long_msg.rs:363-434 | a rename or symlink body decodes to its request exactly if both paths are text |
| `LongRequests.RequestArrives` | src/libs/hostfs-api/src/long_msg.rs:486-600 | every request that can be serialized crosses cutting and assembling without a refusal, is dispatched under its own header with its own identifier, and decodes to itself exactly if its paths are text |
| `LongRequests.BodyLayout` | src/libs/hostfs-api/src/long_msg.rs:480-600 | where identifier, word, lengths and paths lie in a body |
| `LongRequests.HostFsAssembler.constructor` | src/daemons/hostfsd/src/handler.rs:2022-2030 | a new assembler has nothing in flight |
| `LongRequests.HostFsAssembler.AddPart` | src/daemons/hostfsd/src/handler.rs:2058-2169 | the fields after any part, accepted or refused, are those of the value-level assembler |
| `LongRequests.HostFsAssembler.AppendPart` | src/daemons/hostfsd/src/handler.rs:2112-2169 | the checks against the request in flight and the append |
| `LongRequests.HostFsAssembler.TakeAssembled` | src/daemons/hostfsd/src/handler.rs:2175-2188 | hands over the buffer and leaves the empty assembler |
| `LongRequests.HostFsAssembler.HandleLongPart` | src/daemons/hostfsd/src/handler.rs:220-274 | reply and new state are those of the value-level handler, for any part |
| `LongResponses.ResponseArrives` | src/libs/hostfs-api/src/long_msg.rs:210-247 | every serializable readlink response is within the part limit, and its parts carry it in order |
| `LongResponses.DeserializeInverts` | src/libs/hostfs-api/src/long_msg.rs:113-131 | decoding a response body inverts encoding it |
| `LongResponses.ResponseLayout` | src/libs/hostfs-api/src/long_msg.rs:227-247 | where identifier, status, length and target lie in a response body |
| `LongResponses.HostFsHandler.EmitLongReadlinkResponse` | src/daemons/hostfsd/src/handler.rs:930-978 | neither fallback is reachable; the first part is returned and the others are queued in order behind what was queued |
| `LongResponses.HostFsHandler.TakeNextResponsePart` | src/daemons/hostfsd/src/handler.rs:107-109 | first in, first out, and nothing when empty |
| `LongResponses.HostFsHandler.Respond` | src/uservm/src/standalone.rs:431-462 | the worker sends all parts of the response in order and leaves the queue empty for the next request |
| `ResponseAssembly.StreamCompletesOnCount` | src/daemons/vfsd/src/main.rs:182-280 | a stream that starts with part 0 and whose parts declare the same total waits until as many have arrived, in any order and repeated or not, and then completes its operation with them sorted, or takes the daemon down if one declares more bytes than a part has |
| `ResponseAssembly.SegmentOutcome` | src/daemons/vfsd/src/main.rs:182-280 | for a part 0 and any parts after it, whatever totals they declare: cancelled when there are more than the first declared, complete when the last after sorting declares as many as there are, waiting otherwise |
| `ResponseAssembly.RestartForgets` | src/daemons/vfsd/src/main.rs:188-236 | in a daemon that is up, a part 0 that arrives again cancels the operation in the slot, if there is one, and what follows is received as by an empty slot |
| `ResponseAssembly.StrayPartsAreIgnored` | src/daemons/vfsd/src/main.rs:269-278 | parts that come before any part 0 leave no trace |
| `ResponseAssembly.ShortStartIsIgnored` | src/daemons/vfsd/src/main.rs:188-197 | a part 0 too short for an identifier changes nothing |
| `ResponseAssembly.DeclaresNone` | src/daemons/vfsd/src/main.rs:212-215 | a part 0 that declares no parts waits, and the next part cancels its operation |
| `ResponseAssembly.GoesDownIff` | src/daemons/vfsd/src/main.rs:252-258 | the daemon goes down if and only if a stream completes one of whose parts declares more bytes than a part has |
| `ResponseAssembly.SortsToIff` | src/libs/syscall/src/message/long.rs:82-86 | sorting any arrivals gives the parts of a response if and only if there are as many, each is one of them and none came twice |
| `ResponseAssembly.CompletesRightlyIff` | src/libs/syscall/src/message/long.rs:71-108 | when as many parts have arrived as a response has and declare as many, whichever response they are of, the stream ends, and it does so with the response's own parts if and only if each is one of them and none has arrived twice |
| `ResponseAssembly.RepeatCounterexample` | src/libs/syscall/src/message/long.rs:100-108 | parts 0, 1 and 1 of three complete a response of 100 bytes with 132 |
| `ResponseAssembly.ResponseCompletes` | src/daemons/vfsd/src/main.rs:182-280 | from daemon to daemon: whatever the slot held and however the parts after the first are reordered, the response completes its own operation and decodes to itself; the operation that it displaces, if any, is cancelled first |
| `ResponseAssembly.InsertKeepsSorted` | src/libs/syscall/src/message/long.rs:82-86 | moving the pushed part to its place keeps the parts sorted by number |
| `ResponseAssembly.LongMessage.constructor` | src/libs/syscall/src/message/long.rs:46-56 | a new message holds no parts |
| `ResponseAssembly.LongMessage.AddPart` | src/libs/syscall/src/message/long.rs:71-89 | refuses exactly when full or already complete; otherwise the part is inserted behind those with its number or a smaller one |
| `ResponseAssembly.ReadlinkReceiver.constructor` | src/daemons/vfsd/src/main.rs:127-135 | the slot starts empty |
| `ResponseAssembly.ReadlinkReceiver.OnPart` | src/daemons/vfsd/src/main.rs:182-280 | slot, outcomes and whether the daemon is up, after any part at all, are those of the value-level receiver |
| `ResponseAssembly.ReadlinkReceiver.Start` | src/daemons/vfsd/src/main.rs:188-236 | part 0 gives up the stream in the slot, cancelling its operation, and starts its own |
| `ResponseAssembly.ReadlinkReceiver.Continue` | src/daemons/vfsd/src/main.rs:237-268 | a refused part cancels the operation, and the one that completes the count ends it with the concatenated body, or with a panic exactly if a part declares more bytes than it has |
| `ResponseAssembly.ReadlinkReceiver.Body` | src/daemons/vfsd/src/main.rs:252-258 | the concatenated payloads, or a panic exactly if a part declares more bytes than it has |
| `FdTable.Next` | src/daemons/hostfsd/src/fd_table.rs:112-127 | the cursor stays within 1 to 2^31-1 across the 32-bit wrap-around |
| `FdTable.ProbesFill` | src/daemons/hostfsd/src/fd_table.rs:109-120 | pigeonhole: n probes that are all taken need n open descriptors, also across the wrap-around |
| `FdTable.FirstFree` | src/daemons/hostfsd/src/fd_table.rs:107-120 | the descriptor found is unused and every one tried before it was taken |
| `FdTable.Allocating` | src/daemons/hostfsd/src/fd_table.rs:103-134 | fails exactly when 256 descriptors are open, and then changes nothing; otherwise the descriptor was unused, gets the file, kind and path with no listing, no other entry changes and the cursor is behind it |
| `FdTable.Closing` | src/daemons/hostfsd/src/fd_table.rs:149-151 | the descriptor is not open afterwards, every other entry and the cursor are as they were, and the answer is whether it was open |
| `FdTable.PlayKeepsOrder` | src/daemons/hostfsd/src/fd_table.rs:103-151 | every allocation and close keeps the numbers issued so far equal to 1, 2, 3 and on |
| `FdTable.KthAllocIsK` | src/daemons/hostfsd/src/fd_table.rs:93-151 | whatever is closed in between, the k-th descriptor issued is number k up to 2^31-1: none is reused before the cursor wraps |
| `FdTable.OpenIsIssuedNotClosed` | src/daemons/hostfsd/src/fd_table.rs:93-151 | after any session the open descriptors are those issued and not closed since; a close reports that, and an allocation fails if and only if there are 256 |
| `FdTable.PlayKeepsLog` | src/daemons/hostfsd/src/fd_table.rs:103-151 | every allocation and close keeps the table the set of descriptors issued and not closed since |
| `FdTable.FdTable.constructor` | src/daemons/hostfsd/src/fd_table.rs:93-98 | a new table is empty with its cursor at 1 |
| `FdTable.FdTable.Alloc` | src/daemons/hostfsd/src/fd_table.rs:103-134 | the probing loop computes the first free descriptor, and its attempt limit is never reached |
| `FdTable.FdTable.Close` | src/daemons/hostfsd/src/fd_table.rs:149-151 | removes exactly that entry and reports whether it was there |
| `FdTable.Lookup` | src/daemons/hostfsd/src/fd_table.rs:63-65 | the entry at an offset of a listing, and nothing exactly from its end on |
| `FdTable.Reading` | src/daemons/hostfsd/src/fd_table.rs:59-66 | a read opens and closes nothing, and a listing once made is kept |
| `FdTable.FdTable.ReaddirAt` | src/daemons/hostfsd/src/fd_table.rs:59-66 | lists the directory on the first read only and answers from that listing |
| `FdTable.FdTable.InvalidateDirCaches` | src/daemons/hostfsd/src/fd_table.rs:158-162 | drops every listing and changes nothing else |
| `DirListings.StepKeepsCoherent` | src/daemons/hostfsd/src/handler.rs:502-507 | every operation that invalidates or does not change listings keeps all cached listings up to date |
| `DirListings.StepRefines` | src/daemons/hostfsd/src/fd_table.rs:53-66 | from up-to-date caches, each operation answers and moves as the daemon without caches does |
| `DirListings.AllocStripped` | src/daemons/hostfsd/src/fd_table.rs:103-134 | descriptor numbers do not depend on cached listings |
| `DirListings.CacheAgrees` | src/daemons/hostfsd/src/fd_table.rs:53-162 | over any session of opens, closes, directory reads, tree changes and harmless touches, every answer is that of listing the directory each time |
| `DirListings.TouchIsHarmlessIff` | src/daemons/hostfsd/src/handler.rs:1302-1364 | after a change that does not invalidate, every directory read is up to date if and only if no directory that is open and has been read lists differently |
| `DirListings.CreatingOpenIsStaleIff` | src/daemons/hostfsd/src/handler.rs:380-420 | creating a file by opening it, wherever the host lists it, leaves a stale directory read if and only if its parent is open and has been read since the last invalidation |
| `DirListings.StaleReadCounterexample` | src/daemons/hostfsd/src/handler.rs:380-420 | open a directory, read it, create a file in it by opening it, read again: the end is reported where there is an entry |
| `FileRequests.Serve` | src/daemons/hostfsd/src/handler.rs:1223-1740 | no request opens or closes a descriptor or leaves a cursor or file past the host's limit |
| `FileRequests.ReadInFull` | src/daemons/hostfsd/src/handler.rs:1223-1300 | exactly when a read fails, changing nothing; otherwise it answers with the bytes from the offset or cursor and their number, as many as asked for, fit, are granted and exist, and the cursor moves over them exactly without an offset |
| `FileRequests.WriteInFull` | src/daemons/hostfsd/src/handler.rs:1302-1364 | exactly when a write fails, changing nothing; otherwise the number of bytes taken, every byte of the file afterwards, and the cursor behind them exactly without an offset |
| `FileRequests.LseekInFull` | src/daemons/hostfsd/src/handler.rs:1651-1698 | the place reached from start, cursor or end for any offset, and exactly when and with which code a seek fails, moving nothing |
| `FileRequests.TruncateInFull` | src/daemons/hostfsd/src/handler.rs:1700-1740 | every byte of the file afterwards, and exactly when and with which code a truncation fails, changing nothing |
| `FileRequests.PositionalReadsInvisible` | src/daemons/hostfsd/src/handler.rs:1253-1299 | deleting every read at an offset from any run over any descriptors changes no other response, no file and no cursor |
| `FileRequests.DescriptorsDoNotInterfere` | src/daemons/hostfsd/src/handler.rs:1223-1740 | if no file is open both through a set of descriptors and through another, deleting every request on the set from any run changes no other response, cursor or file |
| `FileRequests.InterferenceIff` | src/daemons/hostfsd/src/handler.rs:1223-1740 | and that condition is exact: without it some run shows a difference |
| `FileRequests.ServeIsLocal` | src/daemons/hostfsd/src/handler.rs:1223-1740 | a request changes at most the cursor of its descriptor and the file behind it |
| `FileRequests.SameAnswer` | src/daemons/hostfsd/src/handler.rs:1223-1740 | a request answers and acts by its descriptor's entry and file alone |
| `FileRequests.SequentialReadsCover` | src/daemons/hostfsd/src/handler.rs:1223-1300 | over any run of reads on any descriptors, the sequential reads of one return exactly the stretch of its file that its cursor moved over |
| `FileRequests.SequentialWritesExtend` | src/daemons/hostfsd/src/handler.rs:1302-1364 | over any run of sequential writes on a descriptor, with positional reads and requests on other files between, the file is the old one with all that was taken put without gaps at the old cursor, or the old end of an append file, and the cursor is behind it |
| `FileRequests.ReadBack` | src/daemons/hostfsd/src/handler.rs:1223-1364 | a positional read at the place where the writes started, of no more than they wrote, gets what they wrote |
| `FileRequests.PatchAt` | src/daemons/hostfsd/src/handler.rs:1302-1364 | a written file has the data where it was put, the old bytes elsewhere and zeros in a gap |
| `FileRequests.PositionalWriteIsPwriteIff` | src/daemons/hostfsd/src/handler.rs:1326-1347 | a write at an offset that the host takes moves no cursor and touches no other file, and puts the data at that offset if and only if there is nothing to write, the file was not opened for appending, or the offset is its end |
| `FileRequests.AppendCounterexample` | src/daemons/hostfsd/src/handler.rs:1326-1347 | a byte written at offset 0 of a two-byte file opened for appending becomes its third |
| `FileRequests.SeekThenReadIsPositional` | src/daemons/hostfsd/src/handler.rs:1651-1698 | seeking and then reading at the cursor answers as reading at the offset does |
| `FileRequests.SeekThenWriteIsPositional` | src/daemons/hostfsd/src/handler.rs:1651-1698 | seeking and then writing at the cursor answers as writing at the offset does and leaves the same files |
| `FileRequests.TellAndReturn` | src/daemons/hostfsd/src/handler.rs:1651-1698 | a seek by nothing from the cursor tells where it is without moving it, and a seek there from anywhere brings it back |
| `FileRequests.ResizeAt` | src/daemons/hostfsd/src/handler.rs:1700-1740 | a truncated file has the bytes it had, and zeros past its old end |
| `FileRequests.ReadAfterTruncate` | src/daemons/hostfsd/src/handler.rs:1700-1740 | after a truncation every descriptor of the file reads the truncated file from where its cursor was, and the other files read as before |
| `FileRequests.HostFiles.HandleRead` | src/daemons/hostfsd/src/handler.rs:1223-1300 | seeking, reading and seeking back amounts to a positional read, on every error path too |
| `FileRequests.HostFiles.HandleWrite` | src/daemons/hostfsd/src/handler.rs:1302-1364 | seeking, writing and seeking back amounts to a positional write that leaves every cursor alone, for short writes and on every error path too; without an offset it is the sequential write that `WriteInFull` spells out |
| `FileRequests.HostFiles.HandleLseek` | src/daemons/hostfsd/src/handler.rs:1651-1698 | the new position is measured from the start, the cursor or the end; a failed seek does not move the cursor |
| `FileRequests.HostFiles.HandleTruncate` | src/daemons/hostfsd/src/handler.rs:1700-1740 | resizes the file behind the descriptor for all who share it and moves no cursor; whatever the host refuses with is the answer |
| `HostFsForwarding.RestIsAnsweredOnce` | src/uservm/src/standalone.rs:563-632 | after an accepted first part, the first refusal among the other parts is answered with the tracked identifier under the request's response header and later ones are not |
| `HostFsForwarding.LongRequestIsAnsweredOnce` | src/uservm/src/standalone.rs:563-632 | for every kind but path-stat and every pattern of refusals, one error with the request's identifier and response header if any part is refused or nothing is mounted, none otherwise, and in the mounted case nothing tracked afterwards |
| `HostFsForwarding.SentRequestIsAnsweredOnce` | src/uservm/src/standalone.rs:708-755 | for a request as the sender serializes and cuts it, that error carries the sender's own identifier |
| `HostFsForwarding.EveryRequestIsAnsweredOnce` | src/uservm/src/standalone.rs:551-633 | over whole sessions of single and long requests, the errors are exactly those expected of each request, in order: nothing tracked for one request affects another |
| `HostFsForwarding.UnlistedPartIsAnsweredWrongly` | src/uservm/src/standalone.rs:713-755 | a refused path-stat part is answered with its part count and number for an identifier |
| `HostFsForwarding.AnswersOnceIff` | src/uservm/src/standalone.rs:708-787 | the promise of one answer holds for a request kind if and only if the kind is open, rename, unlink, mkdir, rmdir, symlink, readlink or lstat |
| `HostFsForwarding.AnsweredBetweenSinglesIff` | src/uservm/src/standalone.rs:563-632 | with single requests between the parts, those are always answered as they should be, and the long request is if and only if no refused single request comes before its first refused part |
| `HostFsForwarding.ForgottenRequest` | src/uservm/src/standalone.rs:580-599 | part 0 accepted, a single request refused, part 1 refused: only the single request is answered |
| `HostFsForwarding.ErrorIsSeenIff` | src/uservm/src/standalone.rs:824-842 | the error is taken for a failure by the completion of every kind of request but stat and directory read |
| `HostFsForwarding.ErrorBytes` | src/uservm/src/standalone.rs:824-842 | every byte of the error indicator: -5 in four bytes, in eight for a seek, and zeros for stat and directory read |
| `HostFsForwarding.IoHandler.SendHostFsError` | src/uservm/src/standalone.rs:806-859 | sends one error with the identifier, the response header of the request and the error indicator of that kind, and none for a request without a response header |
| `HostFsForwarding.IoHandler.OnHostFsFrame` | src/uservm/src/standalone.rs:551-633 | the tracked identifier and the errors sent are those of the value-level handler for any frame |
| `StrandedRequests.InFlightIffStranded` | src/daemons/hostfsd/src/handler.rs:2058-2169 | for every pattern of refused parts, the worker is left with the request in flight if and only if a beginning of it was accepted and nothing after, and then with its identifier |
| `StrandedRequests.NextIsDispatchedIff` | src/uservm/src/standalone.rs:580-613 | the next long request is dispatched if and only if the one before was not left so; otherwise its first part is answered under the other's identifier and the rest under none |
| `StrandedRequests.StrandedAnswers` | src/uservm/src/standalone.rs:580-599 | of a request left so and the next, the first is answered by the handler and again by the worker, the second never under its own identifier |
| `StdinBridge.StdinConserved` | src/uservm/src/standalone.rs:1065-1113 | over any run of reads, the frames followed by what is left are the input in order, and no frame is longer than was asked for, so its length fits 32 bits |
| `StdinBridge.EmptyFrameIff` | src/uservm/src/standalone.rs:1065-1113 | an empty frame is sent if and only if nothing was asked for, the input is over, or the next chunk is empty |
| `StdinBridge.TakeInFull` | src/uservm/src/standalone.rs:1065-1113 | a read gets exactly the smaller of what is ready and what it asked for, waiting for one chunk exactly if nothing is buffered and the channel is not known to be closed |
| `StdinBridge.EndOfInputIsExact` | src/uservm/src/standalone.rs:1065-1113 | without empty chunks, a read is answered as end of input if and only if everything has been delivered |
| `StdinBridge.Bridge.HandleReadRequest` | src/uservm/src/standalone.rs:1065-1113 | buffer, closed flag and frame are those of the value-level bridge, and the length conversion cannot fail |
| `Elf.LowestAddress` | src/uservm/src/elf.rs:161-187 | a lower bound of the segments' addresses that one of them attains |
| `Elf.HighestEnd` | src/uservm/src/elf.rs:161-187 | an upper bound of the segments' ends that one of them attains |
| `Elf.ScanTable` | src/uservm/src/elf.rs:141-192 | the loop succeeds exactly if every loadable entry is valid, and then holds the bounds of them all |
| `Elf.MemoryFootprint` | src/uservm/src/elf.rs:90-216 | succeeds exactly for a valid header with its table in bounds and at least one loadable segment, all valid; the range is from the lowest address to the highest end |
| `Elf.ImageLayout` | src/libs/elf/src/elf32.rs:200-310 | an image put together from header fields and program headers is read back as those fields and headers, wherever the table lies |
| `Elf.ValidFhdrIff` | src/libs/elf/src/elf32.rs:263-280 | a header is valid exactly if the bytes of magic, class, encoding, version and entry size are as they should be |
| `Elf.ExecutableIff` | src/uservm/src/elf.rs:255-285 | an image is an i386 executable exactly by four bytes of its header |
| `Elf.LoadableOnly` | src/libs/elf/src/elf32.rs:314-316 | every loadable entry is an entry of the table and of type 1 |
| `Elf.EntryPlace` | src/uservm/src/elf.rs:286-344 | every entry of type 1 is among the loadable ones, behind those before it in the table |
| `Elf.CopySegment` | src/uservm/src/elf.rs:319-330 | file bytes and zero fill at the addresses that the segment covers, and no other address changes |
| `Elf.LoadSegment` | src/uservm/src/elf.rs:299-342 | one turn extends both the memory image and the bounds by that segment |
| `Elf.LoadSegments` | src/uservm/src/elf.rs:286-344 | succeeds exactly if all loadable segments are valid and fit; on failure exactly those before the first at fault are loaded |
| `Elf.Load` | src/uservm/src/elf.rs:244-356 | success exactly for a valid executable i386 image whose segments fit; every address is then as the segments say, and the range returned is that of the footprint; on failure memory holds exactly the segments before the one at fault |
| `Elf.LoadIffFootprintFits` | src/uservm/src/elf.rs:113-355 | for a readable executable, loading succeeds if and only if the footprint is computed and ends within the memory offered |
| `Elf.LastCoveringSegmentWins` | src/uservm/src/elf.rs:286-344 | an address that a segment covers and no later one does holds the file's byte at the same distance into the segment, or a zero past the file's part of it |
| `Elf.UncoveredIsUnchanged` | src/uservm/src/elf.rs:286-344 | an address that no segment covers keeps its byte |
| `Elf.DisjointSegmentsAreIntact` | src/uservm/src/elf.rs:286-344 | for segments that do not overlap the order of the table does not matter |
| `Klog.KlogBuffer.constructor` | src/kernel/src/klog.rs:366-380 | a new buffer holds and has written nothing |
| `Klog.KlogBuffer.Append` | src/kernel/src/klog.rs:282-306 | batched while there is room, written together when that fills the buffer exactly, otherwise the buffer is written first; always whole strings, and the buffer is not full afterwards |
| `Klog.KlogBuffer.Flush` | src/kernel/src/klog.rs:321-332 | writes what is buffered in one piece, and nothing when nothing is |
| `Klog.OutputFollowsInput` | src/kernel/src/klog.rs:282-332 | device output followed by the buffer is the concatenation of all strings appended, in order |
| `Klog.WritesAreText` | src/kernel/src/klog.rs:321-332 | if every string is well-formed UTF-8, so is every device write: the unchecked conversion is sound |
| `Utf8.IsUtf8Iff` | src/kernel/src/klog.rs:321-332 | the bytes taken for text are exactly the encodings of sequences of Unicode scalar values |

## Left out

- Sockets, tokio scheduling, wall-clock timeouts, `pthread_kill` and Windows cancellation: nondeterministic steps of the environment.
- Profiler timestamps written into messages on the way, performance counters and logging macros.
- The outbound direction beyond the encoders: guest output, and draining it at shutdown.
- The vCPU leaving its loop and closing its channel while frames are queued: the frames are then dropped, and the model's channel to the vCPU stays open.
- A guest read of the input port with another size than four bytes, which is counted and then refused; the kernel does not do that.
- The bytes of guest memory: a frame counts as delivered when it is written; the rewriting of the message type and the pull response built for a bulk frame are not modelled.
- Interrupt notification after a credit is added, and its failure.
- The standalone "networking not allowed" reply, which is sent without being counted; the counter chain is that of the managed mode.
- Snapshot contents, and what restoring one does to credits and counters.
- Shutdown during a flush wait: the wait drops the command, as the code does, and nothing is claimed about who shuts the VM down then.
- OrchestratorThread.Thread.Call: the VMM callbacks only report success or failure, as the environment decides.
- OrchestratorThread.Thread.Turn: which of two ready channels is served is left open, as it is by the code; the timeout is given as the number of messages that the shutdown wait takes in before it.
- PipelineThreads.Vm.Relay: a turn that has to wait for room is cut short there instead of waiting, because nothing bounds the wait; a control command that ends the loop is a step of the system only.
- FlushHandshake.IoStepKeepsInv: the control arm is modelled as steps on values, without the I/O thread's other arms, because only its order against the orchestrator matters.
- ResponseAssembly.ReadlinkReceiver.Start: running out of memory is not modelled.
- HostFsForwarding.LongRequestIsAnsweredOnce: it is about what the handler itself sends; the worker may answer as well after a middle part was refused.
- FileRequests.Serve: files are regular files, and what the host refuses or cuts short is a parameter of each request.
- DirListings.CacheAgrees: a listing is a function of the tree, so the order in which the host lists an unchanged directory is assumed not to change.
- Path resolution in the sandbox, open flags, modes and kinds, and the mapping of host errors to codes: tables over calls into the host.
- Inline requests and the handlers behind them other than read, write, lseek and truncate: they add no state of their own.
- Elf.Load: the caller's unsafe contract, that what the headers point at can be read, is a precondition; host addresses are 64 bits wide.
- Kernel image, boot sequence, UART, `networkd`, benchmark programs, Python and build scripts.
