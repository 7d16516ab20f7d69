# Verification of the concurrency groups, the byte-stream stack and the log handler

This project models three parts of the repository and proves what they promise.

1. **Two concurrent protocols.** `threads.Group.Run` (TaskGroup, TaskGroupTheorems) and
   `singleflight.Group` (Singleflight, SingleflightTheorems) are state machines: every region the
   code runs under its mutex, every channel operation and every return is one action, and each
   theorem is about every schedule of every set of callers. TaskGroupTraces and SingleflightTraces
   say what a schedule's events, read on their own, make the callers see. TaskGroupRegions and
   SingleflightRegions give the locked regions in the form the code has, as methods that update
   fields, proved equal to the actions.
2. **The byte-stream stack.** Size classes and pools (Alloc), buffers over arrays (Buffers), who
   owns an array over whole runs (PoolRuns), buffered writers (BufWriters), counters (Counters) and
   the slices that hold them (SharedCounters), chains of cached and counting readers as values
   (Chains) and as objects (Readers), what a copy delivers (Deliveries), what it leaves behind
   (Aftermath), `Copy` itself (Copying), the splice loop (Splicing), and the choice between a splice
   and the plain loop (PureCopying). Readers, writers and the kernel play scripts (Peers,
   Splicing): a statement about them is for all scripts, so for every pattern of short reads and
   writes, empty reads, retries and errors.
3. **The metadata merge of the console handler.** The slice helpers (Slices), metadata keys
   (Metadata), the merge against an ordinary map (LogHandlers), its order (MetadataOrder), and
   handlers derived from handlers with their preformatted attributes (ConsoleHandlers).

Bytes are integers below 256. `Read(max)` returns the bytes that the code puts at the front of a
slice of length `max`. Counters are numbered; a Ledger keeps what each was called with.

The loops of the stack are proved against functions of the two scripts, which give the bytes moved,
the error and what is left of the scripts: Drain and Intake for a buffer, Relay for a buffered writer,
Pump, Caches and Outcome for a copy, Outflow and Run for a splice. When they fail is then proved
about those functions, as a condition on the scripts alone.

## Where the code does not do what one would expect

In each case the model follows the code, a member shows the failure, and a member says exactly when
the expected property holds.

| what | shown by | holds exactly when |
|---|---|---|
| A cached reader with a nil reader under it loses bytes it has already copied out | Chains.NilUnderlayDropsBytes | Chains.ReadRefinesStream |
| A destination that fails with io.EOF ends `Copy` with a nil error and bytes missing | Copying.EofFromTheDestinationIsSwallowed | Deliveries.NilWithBytesMissingExactlyWhen |
| A handshake that uses part of its buffer loses the rest; one whose read fails delivers nothing | Deliveries.HandshakeMayLoseBytes | Deliveries.NilMeansEverythingExactlyWhen |
| `Copy` extends a counting reader under cached bytes in place, so whoever copies from or reads through the outside again tells the outer counters twice | Copying.SecondCopyTellsTwice | Aftermath.OuterCountersStayExactlyWhen |
| A splice that the kernel turns down after some rounds is followed by the plain loop, and the n of the spliced bytes is forgotten | PureCopying.SplicedBytesAreForgotten | PureCopying.CopyPure |
| A cached reader that was read to the end of its buffer drops a reference, and one more when the buffer is picked | Readers.ReadThenPick | Readers.ReadThenPick |
| `BufWriter.Close` frees the buffer without flushing, so pending bytes never arrive | BufWriters.BufWriter.Close | BufWriters.BufWriter.Close |
| A drained but not reset buffer makes `BufWriter.WriteByte` fail for good | BufWriters.DrainedBufferWedges | BufWriters.ByteAfterFlush, BufWriters.BufWriter.WriteByte |
| A pipe goes back to the pool with the bytes of a failed splice, and the next splice delivers them | Splicing.LeftoversAreDelivered | Splicing.LeavesNothingExactlyWhen, Splicing.CleanPipeExactlyWhen |
| When no pipe can be made, `splice` reports an error as handled, so `Copy` does not fall back | Splicing.PipePool.NoPipeIsReportedAsHandled | Splicing.PipePool.Splice |
| Two readers made from one slice of counters with room in it: extending the second replaces a counter of the first | SharedCounters.TwoReadersOfOneSlice | SharedCounters.ApartExactlyWhen, SharedCounters.ExtendBeside |
| fn returned normally, but its error is the panic of a nested call: subscribers get nothing | SingleflightTheorems.NestedPanicIsNotDelivered | SingleflightTheorems.NormalReturnDeliversUnless |
| `Run` without tasks, or with `Concurrency(0)` and a live context, never returns | TaskGroupTheorems.NeverFinishes | TaskGroupTheorems.ReturnsExactlyWhen |
| `Put` panics on powers of two below 64 | Alloc.PutClassification | Alloc.PutClassification |
| Splitting a `WithAttrs` call may reorder metadata keys | MetadataOrder.SplitMayReorder | MetadataOrder.SplitCall |
| Unwrapping a foreign writer that hides what it counts never ends | Counters.HiddenUnderlaySpins | Counters.WriterLoopEndsExactlyWhen |

## Model

| member | source | states |
|---|---|---|
| TaskGroup.StepInv | threads/group.go:66-126 | every action of any of the overlapping runs keeps the invariants of all runs and of the queue |
| TaskGroup.ReachableInv | threads/group.go:56-126 | the invariants hold after every possible schedule |
| TaskGroup.JoinKeepsEveryError | threads/group.go:86-93 | the joined error determines the recorded failures, labelled and in order, without loss |
| TaskGroupTheorems.ConcurrencyBound | threads/group.go:49-104 | tokens in the queue plus tokens held by goroutines of all overlapping runs stay n; at most n bodies run; giving a token back never blocks |
| TaskGroupTheorems.ReturnsAfterEveryTask | threads/group.go:66-120 | when Run returns every goroutine has decremented the countdown once and exactly one saw zero |
| TaskGroupTraces.PhasesInOrder | threads/group.go:56-126 | at every point the caller's goroutine has started the tasks, taken one branch of the select, run the clean-up once, waited and returned, in this order; it returns the upstream error exactly if it took that branch |
| TaskGroupTraces.TaskPaths | threads/group.go:68-105 | every goroutine is skipped, or takes a token if there is a queue, runs its body once, records what the body reported once, and gives the token back |
| TaskGroupTraces.LogIsFailures | threads/group.go:84-97 | the failures of a run are the errors that its bodies reported, in the order of the locked regions |
| TaskGroupTraces.RunResult | threads/group.go:56-126 | the upstream error, or the join of exactly the errors reported by the bodies in completion order; every task was run or skipped |
| TaskGroupTraces.ResultWithoutCancel | threads/group.go:56-126 | unless the caller cancels, nil means that every body ran and reported nil, and only fast-fail after a failure skips tasks |
| TaskGroupTraces.FastFailCancels | threads/group.go:91-93 | with fast-fail, from the first recorded failure on the run is cancelled: every waiter can be skipped and the caller can leave its select |
| TaskGroupTraces.CancelledExactlyWhen | threads/group.go:84-114 | while a task is undecided and the caller has not cancelled, a run is cancelled if and only if fast-fail is on and a failure was recorded; nobody leaves the select before |
| TaskGroupTheorems.StepLowersRank | threads/group.go:56-126 | every step lowers a measure |
| TaskGroupTheorems.EveryScheduleEnds | threads/group.go:56-126 | the number of steps is bounded before the runs start |
| TaskGroupTheorems.Progress | threads/group.go:66-126 | a started run with tasks and room in the queue is never stuck: something can move |
| TaskGroupTheorems.NeverFinishes | threads/group.go:49-120 | no tasks, or an empty queue with a live context, and Run cannot return |
| TaskGroupTheorems.ReturnsExactlyWhen | threads/group.go:49-126 | once nothing can move, a started run has returned if and only if it has tasks and the limit is not 0 or its context is cancelled |
| TaskGroupRegions.TokenQueue.constructor | threads/group.go:49-54 | Concurrency(n) leaves n tokens in a channel for n, without a blocking send |
| TaskGroupRegions.RunVars.RecordOutcome | threads/group.go:84-97 | the locked region after a body is the Record action on countdown, error and fast-fail cancellation |
| TaskGroupRegions.RunVars.SkipTask | threads/group.go:70-80 | the locked region of a cancelled waiter is the Skip action |
| Singleflight.StepInv | enhancements/singleflight/singleflight.go:91-214 | every Do, DoChan, fn end, completion, return and Forget keeps the invariants of map, calls, callers and channels |
| Singleflight.DeliverOnce | enhancements/singleflight/singleflight.go:174-179 | the loop over the channels appends one result to each of them and nothing elsewhere |
| SingleflightTraces.ExitIsKept | enhancements/singleflight/singleflight.go:144-205 | from the step in which fn ends its call has for good the value and error that fn returned, the recovered panic, or the mark of a Goexit |
| SingleflightTraces.CallersOfSchedule | enhancements/singleflight/singleflight.go:91-141 | every caller of the schedule has a call for the key it named; DoChan callers wait on a channel, and of the Do callers exactly those nobody came before run fn |
| SingleflightTraces.WhoeverCallsNext | enhancements/singleflight/singleflight.go:91-141 | a new caller gets an unfinished call of its key that is not forgotten, and a new one exactly if there is none |
| SingleflightTraces.AnyoneCanCall | enhancements/singleflight/singleflight.go:91-141 | no caller has to wait to enter, and nobody to forget |
| SingleflightTraces.Delivery | enhancements/singleflight/singleflight.go:91-200 | a Do caller leaves as fn ended, with the value and error that fn returned; a DoChan channel gets them once, at completion, and nothing else; all with one flag, true exactly when more than one caller attached |
| SingleflightTraces.HungExactlyWhen | enhancements/singleflight/singleflight.go:163-171 | the group hangs if and only if a call whose fn panicked, or returned a recovered panic, completed with a DoChan caller waiting |
| SingleflightTheorems.CompletionNeverBlocks | enhancements/singleflight/singleflight.go:150-179 | the sends of a completing call always have room |
| SingleflightTheorems.CompletedIsFrozen | enhancements/singleflight/singleflight.go:99-114 | value, error, dups and channels of a completed call never change again, so they can be read without the lock |
| SingleflightTheorems.NormalReturnDeliversUnless | enhancements/singleflight/singleflight.go:163-179 | after a normal return the channels are served if and only if the error is not a recovered panic |
| SingleflightTheorems.NestedPanicIsNotDelivered | enhancements/singleflight/singleflight.go:163-179 | a schedule in which fn returns normally and its subscriber gets nothing |
| SingleflightTheorems.Exclusion | enhancements/singleflight/singleflight.go:96-161 | a key maps to an unfinished call of its own, and at most one unfinished call per key is not forgotten |
| SingleflightTheorems.ExecutionsNeverOverlap | enhancements/singleflight/singleflight.go:91-161 | without Forget two executions for one key never overlap |
| SingleflightTheorems.ForgottenKeepsNewer | enhancements/singleflight/singleflight.go:159-161 | a forgotten call that completes does not remove the newer call of its key |
| SingleflightTheorems.ForgetGivesFreshCalls | enhancements/singleflight/singleflight.go:207-214 | whoever calls after Forget attaches to a call that began after it |
| SingleflightTheorems.StepDoesWork | enhancements/singleflight/singleflight.go:91-200 | every end of fn, completion and return uses up one unit of finitely many |
| SingleflightTheorems.NobodyIsStuck | enhancements/singleflight/singleflight.go:91-200 | until a caller is served, the end of its fn, the completion or its own return is possible |
| SingleflightRegions.Group.DoEnter | enhancements/singleflight/singleflight.go:91-113 | the locked region of Do is the Do action, and tells joiner from leader |
| SingleflightRegions.Group.DoChanEnter | enhancements/singleflight/singleflight.go:121-141 | the locked region of DoChan is the DoChan action and makes the channel it returns |
| SingleflightRegions.Group.Finish | enhancements/singleflight/singleflight.go:150-180 | the deferred locked region, with its loop of sends, is the completion action |
| SingleflightRegions.Group.ForgetKey | enhancements/singleflight/singleflight.go:210-214 | Forget is the forgetting action |
| Alloc.MsbBrackets | buf/alloc.go:128-132 | msb with its 32-bit and 16-bit truncations is the position of the most significant bit on sizes up to 65536 |
| Alloc.SizeClass | buf/alloc.go:45-58 | the pool index is in range and its array length is the least power of two that holds the size and 64, below twice the size above 64 |
| Alloc.PutClassification | buf/alloc.go:90-126 | Put stores exactly 2^6 to 2^16 in pool k-6, panics exactly on smaller powers of two, and rejects the rest |
| Alloc.PutUndoesGet | buf/alloc.go:45-126 | an array from Get goes back to the pool it came from |
| Alloc.Allocator.Get | buf/alloc.go:45-86 | nothing exactly for sizes out of range; otherwise an array of the size class, fresh or taken out of the pools, and pool k keeps holding only arrays of length 2^(k+6) |
| Alloc.Allocator.Put | buf/alloc.go:88-126 | an accepted array is added to its pool, a bag; no array is pooled twice afterwards if and only if none was and this one was not in a pool already |
| Alloc.Allocator.PoolsDisjoint | buf/alloc.go:27-41 | no array is in two pools |
| Peers.ServeLaw | buf/buffer.go:140-147 | reads of any lengths take their bytes off one flat stream, and the first error is at its end |
| Peers.IsSomeCause | enhancements/iolib/copy.go:40 | errors.Is finds a target if and only if taking off some of the wrappers gives it |
| Peers.IsInnermost | enhancements/iolib/copy.go:40 | a target that wraps nothing is found if and only if it is the innermost cause |
| Buffers.Buffer.NewSize | buf/buffer.go:41-59 | an empty buffer with an array nobody else has: none, plain, or out of the pools by size |
| Buffers.Buffer.Free | buf/buffer.go:91-100 | gives the array back, only unreferenced and managed, and never an array that is pooled already |
| Buffers.Buffer.Read | buf/buffer.go:199-206 | takes a prefix of the contents, io.EOF exactly when empty |
| Buffers.Buffer.Write | buf/buffer.go:268-278 | appends what fits, a short-buffer error exactly when full |
| Buffers.Buffer.WriteString | buf/buffer.go:216-227 | appends all or nothing |
| Buffers.Buffer.WriteByte | buf/buffer.go:229-236 | appends the byte unless full |
| Buffers.Buffer.ReadByte | buf/buffer.go:208-214 | takes the first byte unless empty |
| Buffers.Buffer.Discard | buf/buffer.go:238-252 | drops a prefix, with its two errors |
| Buffers.Buffer.Peek | buf/buffer.go:254-266 | shows a prefix and changes nothing, with its three errors |
| Buffers.Buffer.ReadFromOnce | buf/buffer.go:140-147 | appends the bytes of one read, none lost |
| Buffers.Buffer.WriteToOnce | buf/buffer.go:149-156 | one write of the contents: bytes, error and what stays are what the writer's reply says; io.EOF on an empty buffer |
| Buffers.Buffer.WriteTo | buf/buffer.go:158-187 | what the writer received and what stays make up the old contents, with the error and the rest of the script as Drain says; at most 101 calls for each byte |
| Buffers.DrainFailsExactlyWhen | buf/buffer.go:158-187 | writing out fails if and only if the writer reports an error, or 101 empty writes in a row, before it has taken everything |
| Buffers.DrainFailure | buf/buffer.go:158-187 | the reply that ends a failing WriteTo, the bytes taken by then and the error it becomes |
| Buffers.Buffer.ReadFrom | buf/buffer.go:106-138 | what went in, the error and what the source still has are what Intake says; at most 101 calls for each free byte |
| Buffers.IntakeLaw | buf/buffer.go:106-138 | reading in ends with the whole stream, nil exactly if its end's innermost cause is io.EOF; or with the rest still in the source: full, or after 101 empty reads in a row |
| Buffers.IntakeStallsExactlyWhen | buf/buffer.go:106-138 | io.ErrNoProgress if and only if 101 empty reads in a row are met before an error and with room left, or the source itself ends so |
| PoolRuns.Apply | buf/buffer.go:91-100 | each buffer operation does to the real buffer what it does to a slot with bytes of its own, and lets go of an array only when the buffer dies |
| PoolRuns.World.Make | buf/buffer.go:41-59 | a new buffer from the shared pools starts out as an independent empty slot and keeps every array with one owner |
| PoolRuns.World.Touch | enhancements/iolib/cache.go:50-90 | writing, reading, freeing, caching, reading through the cache and picking change one slot only and keep every array with one owner |
| PoolRuns.World.Perform | buf/buffer.go:41-100 | any run of any operations over pooled arrays delivers the same bytes as the run of independent slots and ends with one owner for each array |
| PoolRuns.RunIsAQueue | buf/buffer.go:199-278 | over any run of any operations what came out of a buffer is the front of the bytes written to it, up to its size, and what it still has is the rest |
| BufWriters.BufWriter.Flush | enhancements/iolib/rw.go:114-124 | received then pending bytes stay the same, failed or not; it fails exactly when writing out the pending bytes does; a drained buffer keeps its cursors |
| BufWriters.FlushReports | enhancements/iolib/rw.go:114-124 | a flush fails if and only if writing out the pending bytes does, with that error under the label of the flush |
| BufWriters.BufWriter.Write | enhancements/iolib/rw.go:27-49 | the n reported bytes are appended to received-then-pending; what fits never fails, anything else fails as the flush or the direct write does |
| BufWriters.BufWriter.WriteString | enhancements/iolib/rw.go:51-64 | the same for strings, with io.ErrShortBuffer exactly when the flushed buffer still has no room for a string that it could hold |
| BufWriters.BufWriter.WriteByte | enhancements/iolib/rw.go:66-75 | the same for a byte; io.ErrShortBuffer exactly on a buffer drained up to its end, any other error is the flush's |
| BufWriters.BufWriter.ReadFrom | enhancements/iolib/rw.go:77-103 | what was taken off the source is appended to received-then-pending, with errors and both scripts as Reading says |
| BufWriters.BufWriter.Close | enhancements/iolib/rw.go:105-108 | everything accepted has arrived if and only if nothing was pending; the unreferenced buffer is freed |
| BufWriters.ReadingLaw | enhancements/iolib/rw.go:77-103 | nil means the whole stream was taken; otherwise a source not at its end still has the rest, and the error is the flush's, io.ErrShortWrite without room, or the source's own |
| BufWriters.Run | enhancements/iolib/rw.go:27-124 | over every sequence of operations, accepted bytes are received bytes followed by pending bytes |
| BufWriters.ByteAfterFlush | enhancements/iolib/rw.go:66-124 | after a flush WriteByte fails with io.ErrShortBuffer if and only if the buffer was drained to its end, or was full and written out by a flush that failed |
| BufWriters.DrainedBufferWedges | enhancements/iolib/rw.go:66-124 | a writer that takes the byte and fails once, healthy ever after, leaves a drained buffer on which WriteByte fails |
| Chains.ReadRefinesStream | enhancements/iolib/cache.go:59-83 | a read on a chain is a read on the flat stream of cached bytes and source, if and only if it does not ask a reader over nil for more than it has |
| Chains.NeverDrops | enhancements/iolib/cache.go:76-78 | a chain with a source at its end never loses bytes |
| Chains.NilUnderlayDropsBytes | enhancements/iolib/cache.go:76-78 | two cached bytes over nil, read with room for three, are gone |
| Chains.ReadRunRefinesStream | enhancements/iolib/cache.go:59-97 | any reads of any lengths deliver a prefix of the stream in order, and the first error is at its end |
| Chains.PeelUndoesBuild | enhancements/iolib/cache.go:15-36 | picking undoes building: the base and the non-empty buffers in order |
| Chains.PeelAt | enhancements/iolib/cache.go:23-36 | picking goes down past empty buffers to the first reader that does not cache, or under the first one picked before, and takes the non-empty buffers above it |
| Chains.BuildPrepends | enhancements/iolib/cache.go:92-97 | a built list reads as the buffers in order, then the base |
| Chains.PeelKeepsUnread | enhancements/iolib/cache.go:23-36 | picked contents followed by the returned reader's stream are what was unread |
| Chains.BuildReadPeel | enhancements/iolib/cache.go:15-97 | build, read in any way, pick: delivered, picked and remaining bytes make up the buffers and the base stream |
| Chains.CountThenUnwrap | enhancements/iolib/counter/rw.go:70-87 | unwrapping a counted reader gives the base and the old counters followed by the new; counters never stack |
| Chains.CountIsTransparent | enhancements/iolib/counter/rw.go:70-100 | counting changes nothing a reader sees |
| Chains.UnwrapIsTransparent | enhancements/iolib/counter/fn.go:19-32 | unwrapping changes nothing but the counters, and ends at a reader that does not count |
| Chains.RunChargesDeliveredBytes | enhancements/iolib/counter/rw.go:94-102 | over any run of reads a counter of the outermost reader gains the delivered bytes for each place it has there, and what the readers further inside tell it |
| Readers.Read | enhancements/iolib/cache.go:59-83 | reading real objects is the read on their shape, tells the counters the same, and pools no array the chain still needs; a buffer that gives its last byte loses a reference and, unreferenced, is freed with its array back in a pool |
| Readers.NewCacheReader | enhancements/iolib/cache.go:84-90 | an empty buffer is skipped, any other is put in front and referenced once |
| Readers.NewCacheReaderList | enhancements/iolib/cache.go:92-97 | the backward loop builds the list in order and references each non-empty buffer once |
| Readers.PickReaderCache | enhancements/iolib/cache.go:50-57 | the inner reader and the buffer it still had, which loses one reference |
| Readers.PickReaderCacheList | enhancements/iolib/cache.go:23-57 | the walk returns the base and the live picked buffers, apart from each other and from what is left; every buffer it picks, empty or not, loses one reference, and its link is left without it |
| Readers.ReadThenPick | enhancements/iolib/cache.go:50-74 | a read and a later pick drop the one reference of the reader if and only if the read leaves bytes in the buffer, otherwise two |
| Readers.UnwrapReadCounter | enhancements/iolib/counter/fn.go:19-32 | the loop ends at a reader that does not count, with all counters outermost first |
| Readers.NewReader | enhancements/iolib/counter/rw.go:70-87 | wraps or extends in place as the shape function says |
| Counters.Ledger.Call | enhancements/iolib/counter/rw.go:94-102 | the loop over a counter list calls each counter once for each place |
| Counters.HiddenUnderlaySpins | enhancements/iolib/counter/fn.go:34-47 | a counting writer without an underlay keeps the loop going forever |
| Counters.WriterLoopEndsExactlyWhen | enhancements/iolib/counter/fn.go:34-47 | unwrapping a writer ends if and only if every counting writer on the way shows its underlay |
| SharedCounters.Append | enhancements/iolib/counter/rw.go:74-86 | append writes into the array of a slice that has room, otherwise into a new one |
| SharedCounters.NewReader | enhancements/iolib/counter/rw.go:70-88 | a new counting reader keeps the caller's slice itself unless counters come up from below; an old one gets its slice appended to |
| SharedCounters.ExtendBeside | enhancements/iolib/counter/rw.go:74-78 | extending one reader leaves another reader's counters as they are if and only if it does not write over them, or writes what is there |
| SharedCounters.ApartExactlyWhen | enhancements/iolib/counter/rw.go:70-88 | no extension of one of two slices ever writes over the other if and only if neither has spare room inside the other |
| SharedCounters.ExtendAll | enhancements/iolib/counter/rw.go:70-88 | over any run of extensions of readers whose slices are apart, each has its own counters followed by those given to it |
| SharedCounters.TwoReadersOfOneSlice | enhancements/iolib/counter/rw.go:70-88 | of two readers over one slice the first keeps its extension if and only if there is no room for one of the two, or they agree |
| Copying.Write | enhancements/iolib/counter/rw.go:41-49 | a counted write moves exactly what the sink's reply takes and tells every counter that many bytes |
| Copying.UnwrapWriterCounter | enhancements/iolib/counter/fn.go:34-47 | the sink and all counters outermost first |
| Copying.NewWriter | enhancements/iolib/counter/rw.go:20-39 | counters are appended behind those of a counting writer in place, whatever is inside it; plain writers never get two layers |
| Copying.CopyBuffer | enhancements/iolib/copy.go:153-161 | the read and write loop delivers the front of the stream; bytes, error and the rest of the destination's script are Pump's; every counter, the chain and its buffers are left as by the loop's reads |
| Deliveries.PumpFailsExactlyWhen | enhancements/iolib/copy.go:153-161 | the loop fails if and only if some reply of the destination reports an error or takes less than its piece |
| Deliveries.PumpFailure | enhancements/iolib/copy.go:153-161 | the first such reply decides the bytes delivered, the bytes read and the error |
| Deliveries.PiecesMakeUpTheStream | enhancements/iolib/copy.go:153-161 | the pieces the loop writes are not empty, fit its buffer and add up to the flat stream |
| Aftermath.LoopStep | enhancements/iolib/copy.go:153-161 | one pass, by cases: what the reads of the loop take, leave and tell is that of this read and of the rest |
| Aftermath.LoopReadsWhatItTells | enhancements/iolib/copy.go:153-161 | the loop reads exactly the bytes that Pump tells the read counters, and meets the end of the stream unless the destination fails |
| Copying.WriteCaches | enhancements/iolib/copy.go:124-149 | the loop over picked buffers delivers their contents in order, fails and tells counters as Caches says, and on every path leaves each unreferenced buffer freed and its managed array pooled |
| Deliveries.CachesFailExactlyWhen | enhancements/iolib/copy.go:124-149 | that loop fails if and only if the destination fails the writing out of one of the buffers after taking those before |
| Deliveries.CachesFailure | enhancements/iolib/copy.go:124-149 | the buffer at which the loop fails decides error, delivered bytes and the bytes the counters are told |
| Copying.Shake | enhancements/iolib/copy.go:78-111 | what the handshake reads, consumes and reports |
| Deliveries.HandshakeOutcome | enhancements/iolib/copy.go:78-111 | from the first read of at most 4096 bytes and the handshake's answer: what is delivered, returned, told and reported |
| Copying.CopyEarly | enhancements/iolib/copy.go:78-151 | handshake and cached bytes are a prefix of what can arrive, the returned reader has the rest, and errors are the handshake's or those of Caches |
| Copying.CopyGeneric | enhancements/iolib/copy.go:153-161 | the loop below the counters that Copy peeled, with Pump's bytes and error, and every counter's total; a counting source is left extended in place |
| Copying.CopyCounters | enhancements/iolib/copy.go:27-45 | end to end for every source, destination script and handshake: delivered bytes, n, error, the totals of all counters, and the chain that is left, valid and with its arrays in no pool |
| Copying.Copy | enhancements/iolib/copy.go:15-25 | the same from the counters outside; without a handshake the first n bytes of the flat stream arrive, and all of it, n and every counter, when the destination takes everything, or never says io.EOF and the result is nil; nil or not is decided by the innermost cause of the stream's end; the source afterwards has exactly the bytes that are not gone |
| Aftermath.WhatIsStillToCome | enhancements/iolib/copy.go:27-161 | after a copy the chain has exactly the bytes behind those that are gone, or its end was met and none is left |
| Aftermath.DeliveredIsGone | enhancements/iolib/copy.go:27-161 | the delivered bytes are what the handshake consumed and the bytes behind its read, all of them gone from the chain |
| Aftermath.BelowTellsNobodyElse | enhancements/iolib/counter/rw.go:94-102 | a counter that is nowhere inside the chain is told only what the outside tells it |
| Aftermath.OuterCountersStayExactlyWhen | enhancements/iolib/counter/rw.go:70-88 | after Copy every counter is attached as often as before if and only if Copy ends before its loop, there are no counters outside, or the reader under the picked buffers does not count; otherwise the outer ones are attached once more |
| Aftermath.LaterReadsTell | enhancements/iolib/counter/rw.go:74-102 | after Copy any reads through the outside deliver what the inner reader has, and tell each outer counter every byte once, twice if that reader was extended |
| Aftermath.SecondCopyTells | enhancements/iolib/copy.go:15-25 | a second copy of the source tells each outer counter its bytes once more from inside, exactly if the first one extended a reader there |
| Copying.SecondCopyTellsTwice | enhancements/iolib/copy.go:15-25 | two copies of one source: the counter outside is told twice for the one byte of the second |
| Deliveries.OutcomeLaw | enhancements/iolib/copy.go:15-161 | nothing is delivered that cannot arrive; unless the destination failed or the handshake's read did, everything arrives, and the result is nil exactly if the innermost cause of the stream's end is io.EOF, otherwise it has that cause; n is what was delivered |
| Deliveries.OutcomeError | enhancements/iolib/copy.go:27-151 | in every case the error names its stage and has the innermost cause of what ended the copy; the loop's is dropped exactly if that is io.EOF |
| Deliveries.RefusedExactlyWhen | enhancements/iolib/copy.go:15-161 | a copy counts its destination as failed if and only if the handshake errs, a cached buffer cannot be written out, or a reply errs or is short in the loop |
| Deliveries.NilMeansEverythingExactlyWhen | enhancements/iolib/copy.go:38-110 | after a nil result everything arrived if and only if the handshake used all it was given and no io.EOF of the destination cut the loop short |
| Deliveries.NilWithBytesMissingExactlyWhen | enhancements/iolib/copy.go:38-44 | nil hides missing bytes if and only if the loop's first failing reply is an io.EOF with bytes still to go |
| Deliveries.WillingIsNotRefused | enhancements/iolib/copy.go:15-161 | a destination that takes whatever it is offered is never counted as failed |
| Deliveries.NoEofNoLoss | enhancements/iolib/copy.go:38-44 | without an io.EOF among the destination's replies, a nil result means it did not fail |
| Deliveries.HandshakeMayLoseBytes | enhancements/iolib/copy.go:87-110 | copies to a destination that takes everything: a handshake that uses one of two bytes gives nil with one byte missing, a first read with two bytes and io.EOF reports two bytes and delivers none |
| Copying.EofFromTheDestinationIsSwallowed | enhancements/iolib/copy.go:38-44 | a source with two bytes and a destination that answers io.EOF: nil, and nothing arrives |
| Splicing.ReadFunc | enhancements/iolib/splice_linux.go:120-125 | one splice call into the pipe and how it ends |
| Splicing.Pull | enhancements/iolib/splice_linux.go:120-142 | through any number of EAGAINs, bytes, error and the rest of the script are those of the next event that counts |
| Splicing.EndsAt | enhancements/iolib/splice_linux.go:120-154 | by the first event that is neither bytes nor a wait that succeeds: the source offers every byte before it, and ends cleanly, by the failed wait or by the reported error |
| Splicing.WriteFunc | enhancements/iolib/splice_linux.go:126-137 | short moves out of the pipe add up to what left it, in order, up to the first failure or EAGAIN of the destination |
| Splicing.Push | enhancements/iolib/splice_linux.go:126-158 | through any number of short moves and EAGAINs, what reached the destination is what left the pipe, with the error and what stays as Outflow says |
| Splicing.OutflowFailsExactlyWhen | enhancements/iolib/splice_linux.go:126-158 | writing out of the pipe fails if and only if the destination refuses before it has taken everything |
| Splicing.OutflowFailure | enhancements/iolib/splice_linux.go:126-162 | a failing write has the error of the first event that refuses, of the connection, the splice call or the wait, and everything taken before it is through |
| Splicing.SpliceThrough | enhancements/iolib/splice_linux.go:116-170 | from any pipe: what is delivered is the front of the old pipe and what was taken, what stays in the pipe is the rest; n, every counter and the error follow from the two scripts; done without an error if and only if the destination does not fail and the source ends cleanly |
| Splicing.RunFailsExactlyWhen | enhancements/iolib/splice_linux.go:138-170 | a splice fails on the destination's side if and only if in some round the destination refuses too early, as the two scripts say before the call; otherwise every byte offered is through and counted |
| Splicing.RunFailure | enhancements/iolib/splice_linux.go:138-170 | the round and the event that refuse decide the error, the bytes that are through and the bytes counted |
| Splicing.VerdictAt | enhancements/iolib/splice_linux.go:139-154 | the answer by the event that ends the source: done, not supported for EINVAL and ENOSYS, or a read error |
| Splicing.DoneExactlyWhen | enhancements/iolib/splice_linux.go:138-170 | handled without an error if and only if the destination does not fail and the source has no failed wait and no error |
| Splicing.RoundsMakeUpTheOffer | enhancements/iolib/splice_linux.go:138-154 | the rounds are not empty and add up to what the source offers |
| Splicing.CleanPipeExactlyWhen | enhancements/iolib/splice_linux.go:72-81 | for all scripts a splice delivers only its own source's bytes, if and only if the pipe was empty |
| Splicing.LeavesNothingExactlyWhen | enhancements/iolib/splice_linux.go:72-81 | a splice leaves the pipe empty if and only if it was empty and the destination does not fail |
| Splicing.PipePool.GetPipe | enhancements/iolib/splice_linux.go:64-70 | a pooled pipe or a new one; none only when the kernel refuses, and always when it refuses and the pool is empty |
| Splicing.PipePool.Splice | enhancements/iolib/splice_linux.go:106-171 | over any pool: the NoPipe error exactly when there is no pipe, with nothing moved; otherwise bytes, leftovers, n, counters and error of the run, nil exactly as for one pipe; a clean pool delivers the source's own bytes and stays clean if and only if the destination does not fail |
| Splicing.PipePool.NoPipeIsReportedAsHandled | enhancements/iolib/splice_linux.go:106-114 | an empty pool and a refusing kernel: handled, with an error, and nothing copied |
| Splicing.OverOnePipe | enhancements/iolib/splice_linux.go:72-81 | of two splices over one pipe the second delivers first what the first left behind |
| Splicing.LeftoversAreDelivered | enhancements/iolib/splice_linux.go:72-81 | after a splice whose destination was gone, a source that offers b gets its destination the byte a of the first source, without an error |
| PureCopying.CopyPure | enhancements/iolib/copy.go:47-76 | splice, loop, or a splice that is turned down and then the loop, as the scripts say before the call; the error of whichever ends it, nil for the splice exactly if its destination does not fail and its source ends cleanly; counters and the bytes of both ways; n is what got through if and only if nothing was spliced before the splice was turned down and no splice round failed halfway |
| PureCopying.TurnedDownExactlyWhen | enhancements/iolib/splice_linux.go:139-150 | the loop takes over if and only if the source side ends with EINVAL or ENOSYS and the destination did not fail before; then every byte offered is through |
| PureCopying.SplicedBytesAreForgotten | enhancements/iolib/copy.go:64-76 | one byte is spliced and one copied by the loop; both arrive and n is 1 |
| Slices.LastOnesKeys | enhancements/slicelib/slices.go:84-94 | exactly the keys of the input are kept |
| Slices.LastOnesAt | enhancements/slicelib/slices.go:84-94 | each kept element is the last one with its key |
| Slices.LastOnesInOrder | enhancements/slicelib/slices.go:84-102 | kept elements have different keys and are in the order of their last occurrences |
| Slices.LastOnesWriteTheSame | enhancements/slicelib/slices.go:84-102 | keeping the last ones does not change what writing all into a map leaves |
| Slices.UniqByLast | enhancements/slicelib/slices.go:84-102 | the backward scan and in-place reversal compute those elements |
| Slices.Map | enhancements/slicelib/slices.go:3-9 | the block applied to each element in order |
| Slices.IndexMap | enhancements/maplib/from.go:3-10 | each value of the slice with the position of its last occurrence |
| Metadata.MetadataRoundTrip | log/metadata.go:27-55 | an attribute counts as metadata if and only if NewMetadata made it, and its name comes back whatever it contains |
| Metadata.MetadataKey | log/metadata.go:27-42 | the marked key is the fixed prefix, a colon and the name |
| Metadata.SplitIsAStablePartition | log/metadata.go:44-55 | the two parts weave back into the input |
| Metadata.SplitMetadata | log/metadata.go:44-55 | the loop computes that partition |
| LogHandlers.MergeKeepsPositions | log/loghandler/console_handler.go:193-215 | merging keeps keys different and old keys where they were |
| LogHandlers.MergeIsWriting | log/loghandler/console_handler.go:193-215 | as a map, merging is writing the attributes one after another: the last value wins |
| MetadataOrder.SplitCall | log/loghandler/console_handler.go:193-215 | one call or two leave the same value under each key, and the same list if and only if the new keys both parts add come last in the first and first in the second, in one order |
| MetadataOrder.SplitMayReorder | log/loghandler/console_handler.go:193-215 | an input where one call and two leave different orders |
| ConsoleHandlers.GroupPrefix | log/loghandler/console_handler.go:243-258 | after any run the prefix is the dot-join of the non-empty group names |
| ConsoleHandlers.FormattedIsAllLines | log/loghandler/console_handler.go:176-258 | after any run the stored bytes are the space-join of every non-metadata attribute in call order, keyed by the dot-join of the groups opened before it |
| ConsoleHandlers.MetadataIsLastWritten | log/loghandler/console_handler.go:176-215 | after any run keys are different, old keys keep their place, and every key holds the value written last |
| ConsoleHandlers.NewKeysComeInOrder | log/loghandler/console_handler.go:176-215 | of two keys that a run adds, one stands before the other if and only if an earlier call carried it first, or the same call with its last place before |
| ConsoleHandlers.WithAttrsIsCompositional | log/loghandler/console_handler.go:176-241 | WithAttrs(a ++ b) and WithAttrs(a), WithAttrs(b) store the same bytes and the same metadata map |
| ConsoleHandlers.ConsoleHandler.Clone | log/loghandler/console_handler.go:94-107 | an equal handler with a metadata array of its own |
| ConsoleHandlers.ConsoleHandler.WithMetadata | log/loghandler/console_handler.go:193-215 | the indexed in-place merge leaves the specified list |
| ConsoleHandlers.ConsoleHandler.WithFormatted | log/loghandler/console_handler.go:217-241 | the loop and join leave the specified bytes |
| ConsoleHandlers.ConsoleHandler.WithAttrs | log/loghandler/console_handler.go:176-191 | the derived handler is the specified one, the receiver and every other handler stay as they are |
| ConsoleHandlers.ConsoleHandler.WithGroup | log/loghandler/console_handler.go:243-258 | the same for groups; an empty name returns the receiver |

## Left out

- Real system calls, file descriptors, finalizers and RawConn internals: their outcomes are the events of a script.
- PureCopying.CopyPure: the connection is two sides, raw and plain, each with its script; which bytes a plain read brings after a splice is not derived from the raw script. CopyCounters runs the plain loop in its second half; the two are not composed.
- Peers with infinite scripts: a reader's script is finite and ends with io.EOF, a writer whose script is used up takes everything.
- Copying.CopyBuffer: delegation to WriterTo and ReaderFrom peers is not modelled; the plain read and write loop is.
- Copying.CopyCounters: the destination is a plain one without counters around it, as Copy passes it; a counting destination passed by hand is not modelled.
- Copying.Shake: the handshake's buffer, like the copy loop's, is modelled by its size, not as a pooled Buffer.
- Copying.Copy: a source with nil at its end is excluded; the code calls Read on a nil interface there.
- Copying.NewWriter: a counting writer that occurs again inside itself is excluded where the order of all counters is stated.
- Readers.Read: one buffer shared by several cached readers is excluded.
- BufWriters.BufWriter.ReadFrom: delegation to an underlying ReaderFrom is not modelled.
- BufWriters.BufWriter.Write: the code's loop always returns in its first pass, so the model has no loop there.
- BufWriters.BufWriter.Close: the Close of the underlying writer is not modelled; nor is SafeWriter.
- Buffer.Resize, Truncated, ReadFull and use of a freed buffer: 0 <= r <= w <= size <= len is the invariant of every operation here.
- Go's int is unbounded here, except for the truncations in msb and the pool index.
- Readers.NewReader: counter lists are values here and in Copying.NewWriter, so two readers that share the array of a caller's slice are not modelled there; SharedCounters says when that is right and what happens otherwise.
- TaskGroupTraces.RunResult: when the caller cancels, either branch of the main select may win; which one is part of the schedule.
- Singleflight stack traces and the crash itself: a completing panic with subscribers leaves the group locked (`hung`). Of runtime.Goexit only the unwinding is modelled.
- Log rendering: an attribute's value is its text, the output of Handle, colours, time formats and slog internals are not modelled. Anonymous metadata keys come from a global counter that is not modelled.
- ConsoleHandlers.ConsoleHandler.WithMetadata: append always makes a new array; the spare capacity a Go slice may have is never shared between handlers and is not modelled.
- buf/pool.go, services, registry, values, ex and the remaining plumbing.
