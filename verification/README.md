# A verified model of RxRust

RxRust has three stateful parts, and this project models each of them in Dafny and proves what holds of every run.

**The memory-mapped allocator** (`Bits.dfy`, `Allocator.dfy`, `AllocatorThreads.dfy`, `AllocatorRuns.dfy`,
`AllocatorHistory.dfy`).
`MappedRegion` hands out blocks of a file by moving a shared offset with compare-and-swap. `Allocator.MappedRegion` is
the object as one caller sees it, on 64-bit words with wrap-around and the `((x - 1) | (A - 1)) + 1` rounding.
`AllocatorThreads` is the same code run by any number of threads: one action is one atomic access, a run is any list of
actions, a disabled action leaves the state alone, and dropping and re-loading the region (which needs every thread to
be outside the call) is an action too. `NoWrap` is the only bound: the reservations made so far, rounded up, fit a word.
What holds without it is proved without it (`Linearizable`, `NullMeansOverrun`, `NullsFollowSpillsExactly`,
`CounterCountsSession`, `FailuresBounded`), and `ReservationsTile` says that without it the ranges are no longer tiled.
`AllocatorHistory` reads the state's counters, sessions and times off the actions of the run.

**The reactor** (`Protocol.dfy`, `ReadSide.dfy`, `WriteSide.dfy`, `Reactor.dfy`, `ReactorRuns.dfy`).
`Reactor.Connection` and `Reactor.Engine` are the connection objects and the handlers `notify`, `writable` and
`readable`, with an array-backed read buffer, the marker, the append loop, buffer replacement, the output queue and the
drain loop. Their contracts equate the new state with functions on values (`ReadSide.Receive`, `WriteSide.Drain`,
`Reactor.Handle`, and `Reactor.Sends` for the channels); the run theorems are about those functions. Sockets are
environment: a read delivers any bytes that fit the free window, and writes are answered by any sequence of results that
is not "ready, zero bytes" for ever from some write on. These are exactly the sockets on which the drain loop of the
source always ends (`WriteSide.RecoversExactly`).

**The push pipeline** (`Reactive.dfy`, `Processors.dfy`, `Publishers.dfy`, `Pipelines.dfy`, `PipelineRuns.dfy`,
`UnsubscribedChains.dfy`, `Split.dfy`, `SplitRuns.dfy`). Chains of stages with a "keep going" result, early stop by `Take` and two pushes per item in `Unzip`.
`Processors.Subscriber` is one class for all trait implementations; its `op` field says which one it is and holds that
one's fields, and its `OnNext` and `OnComplete` are proved equal to `Reactive.OnNext` and `Reactive.OnComplete`, which
also model a slot without subscriber and the panic of `on_complete` there. `Pipelines` gives each stage its list
function and proves that pushing items one at a time, depth first, leaves every object as evaluating the stages one
after the other on the whole list does. `Split` is the decoupler, queue and coupler between two threads, one send or
receive per step; `SplitRuns` shows each of the two threads to be a run of its own, and what a dropped receiver does.

What the code does, against what its comments suggest:

- The check after a reservation looks at the start of the block only. Some block's reserved range, padding included,
  ends behind the end of the file exactly when the demand has passed that end (`AllocatorRuns.OverrunExactly`), and every
  null comes after such a block (`AllocatorRuns.NullMeansOverrun`). A range ends inside exactly if its start plus the
  rounded size does (`Allocator.EndsInsideExactly`). The caller's own bytes may stay inside where only padding leaves the
  file: `AllocatorRuns.LeavesFileExactly` says when they do not, and `AllocatorRuns.NullsFollowSpillsExactly` for which
  file sizes a null means that a caller was given bytes outside the file: the multiples of eight, and sizes so near 2^64
  that no call is answered null.
- `load` rejects a file only if magic number and recorded size are both wrong, so one right field lets a bad header
  through (`Allocator.BadHeaderAcceptedExactly`).
- The slice handed to the protocol is as long as the last read, not as long as everything unframed. So frames can come
  late, and a buffer replacement drops as many bytes as were waiting before its read. `ReadSide` says, from the sizes of
  the reads, what is lost, when nothing is lost, and when everything is delivered.
- A connection starts with an interest in hang-ups only, although it is registered for reading. A backlog before the
  first readable event re-registers that interest, and reading is no longer asked for
  (`ReactorRuns.ReadRegistrationExactly`).
- `Unzip` may push an item into a `Take` that has completed its subscriber already, and the run goes on. The sink is
  completed exactly once on every source if and only if `PipelineRuns.RunsOutOnce` holds of the limits in the chain.

## Model

| member | source | states |
|---|---|---|
| Bits.BitOrBits | src/mmap_allocator.rs:135 | the recursive definition is bitwise or, bit by bit |
| Bits.FastRoundIsLeastMultiple | src/mmap_allocator.rs:135 | the or-and-increment form is the least multiple of the power of two that is at least the argument |
| Allocator.NextOffsetWraps | src/mmap_allocator.rs:135 | for every offset and size the computed word is the rounded sum modulo 2^64 |
| Allocator.NextOffsetExact | src/mmap_allocator.rs:135 | the computed word is the rounded sum if and only if that sum fits 64 bits |
| Allocator.ReservationHoldsRequest | src/mmap_allocator.rs:126-137 | without wrap the next offset stays aligned, covers the request and wastes less than one unit |
| Allocator.HoldsRequestExactly | src/mmap_allocator.rs:134-137 | the reserved range holds the request if and only if the rounded sum does not wrap |
| Allocator.EndsInsideExactly | src/mmap_allocator.rs:134-142 | a reservation holds its request and its padded range ends inside the file if and only if start plus rounded size is at most the total |
| Allocator.FirstBlocks | src/mmap_allocator.rs:129-145 | the constants in numbers: blocks of 1, 8 and 9 bytes in a new file start at 24, 32 and 40, the next at 56 |
| Allocator.LastOffset | src/mmap_allocator.rs:135 | a reservation at the top of the address space wraps modulo 2^64 |
| Allocator.MappedRegion.New | src/mmap_allocator.rs:61-80 | sizes the file, writes magic, size and the first offset behind the header, count zero |
| Allocator.RejectsExactly | src/mmap_allocator.rs:91-96 | a right magic number alone or a right size alone is never turned down, both wrong always is |
| Allocator.BadHeaderAcceptedExactly | src/mmap_allocator.rs:91-96 | a wrong header is let through if and only if exactly one of its two fields is right, with both examples |
| Allocator.MappedRegion.Load | src/mmap_allocator.rs:82-103 | fails exactly when magic and size are both wrong, so never on one right field; otherwise keeps the offset and starts a new count |
| Allocator.MappedRegion.NumAllocated | src/mmap_allocator.rs:120-125 | reads the counter of this object |
| Allocator.MappedRegion.CreateUseLoad | src/mmap_allocator.rs:180-225 | create, allocate, load: the answers are the sequential ones, the file is taken back with its total and offset, the count starts at zero |
| Allocator.MappedRegion.Allocate | src/mmap_allocator.rs:129-145 | the compare-and-swap loop ends; a block starts at the offset found, null exactly if that offset is above the total, panic exactly on another alignment; only a block is counted |
| AllocatorThreads.StepKeepsInv | src/mmap_allocator.rs:129-145 | every atomic step of any thread keeps the log chained, each reservation owned by one thread or answered correctly, and times in order |
| AllocatorRuns.Linearizable | src/mmap_allocator.rs:133-145 | every answer equals the sequential replay in winning order, and that order respects real time, for all runs and sizes |
| AllocatorRuns.ReservationsTile | src/mmap_allocator.rs:129-145 | in every run the reserved ranges of all threads and sessions cover every byte up to the offset exactly once, aligned, each holding its request, if and only if header plus rounded sizes of the reservations fit a word |
| AllocatorRuns.BlocksDisjoint | src/mmap_allocator.rs:129-145 | two successful calls never share a byte |
| AllocatorRuns.BlockIsItsReservation | src/mmap_allocator.rs:134-144 | in every run a block starts where its reservation does; without wrap that is behind the header and all earlier reservations, and the bytes lie in the reserved range |
| AllocatorRuns.NoAba | src/mmap_allocator.rs:134-137 | a compare-and-swap wins if and only if nothing advanced the offset since the load |
| AllocatorRuns.RequestsHeldExactly | src/mmap_allocator.rs:133-137 | in every run all reservations hold their requests if and only if header plus rounded sizes fit a word |
| AllocatorRuns.ExhaustionIsPermanent | src/mmap_allocator.rs:139-142 | successes precede nulls in reservation order; a padded range ends inside the file if and only if the next reservation succeeds, and any later success implies it |
| AllocatorRuns.NullThenAlwaysNull | src/mmap_allocator.rs:139-142 | a call invoked after some call returned null returns null |
| AllocatorRuns.NullMeansOverrun | src/mmap_allocator.rs:139-142 | in every run on a file with room for the header, before any null comes a success whose padded range ends outside the file, wrap-around included |
| AllocatorRuns.OverrunExactly | src/mmap_allocator.rs:134-142 | in every run, the padded range of some block ends outside the file if and only if header plus rounded sizes exceed the total |
| AllocatorRuns.LeavesFileExactly | src/mmap_allocator.rs:134-142 | for each reservation, from the sizes alone: when its padded range and when the caller's own bytes leave the file; the two agree if the total is a multiple of eight |
| AllocatorRuns.NullsFollowSpillsExactly | src/mmap_allocator.rs:134-142 | over all runs, every null comes after a block whose own bytes leave the file, if and only if the total is at least the header and a multiple of eight, or too large for any null |
| AllocatorRuns.PaddingAloneExhausts | src/mmap_allocator.rs:134-142 | for every other total a run with a null and no bytes handed out outside the file |
| AllocatorRuns.LastBlockMayOverrun | src/mmap_allocator.rs:206-225 | an example in the boundary test's 1024-byte file: the twenty-first 48-byte block ends at 1032, the next call is null |
| AllocatorRuns.CounterCountsSession | src/mmap_allocator.rs:120-143 | count plus uncounted threads is the number of this session's successes; at rest `num_allocated` is that number |
| AllocatorRuns.FailuresBounded | src/mmap_allocator.rs:133-138 | failed compare-and-swaps are at most (threads - 1) times those that advanced the offset |
| AllocatorHistory.LostSwapsBounded | src/mmap_allocator.rs:133-138 | counted on the run itself, compare-and-swaps on an outdated offset are at most (threads - 1) times the actions that moved the offset |
| AllocatorHistory.CountersFollowRun | src/mmap_allocator.rs:133-138 | the counters of failures and moves are those numbers |
| AllocatorHistory.CountsSinceLoad | src/mmap_allocator.rs:120-143 | at rest `num_allocated` is the number of blocks handed out since the last load, whatever went before it |
| AllocatorHistory.RealTimeOrder | src/mmap_allocator.rs:133-145 | every recorded time is the clock at the action of the run it stands for, and if the answer to one call comes before the invocation of another in the run, its reservation does |
| Protocol.ChunksPartition | src/protocol.rs:26-34 | cutting frames off the front loses nothing: sizes, number and leftover |
| Protocol.ChunksOfFlatten | src/protocol.rs:26-34 | frames are recovered from their concatenation |
| ReadSide.ReceiveConserves | src/reactor.rs:393-416 | one read appends its bytes; if it leaves less than the minimum window, exactly as many last bytes as were waiting before it are cut off |
| ReadSide.ReplacedExactly | src/reactor.rs:407-416 | the buffer is kept with everything in it if the window left is at least the minimum; otherwise a new one holds the n mod s last bytes of the slice |
| ReadSide.ReceiveCounts | src/reactor.rs:396-415 | one read yields n / s frames and the residue grows by n mod s, or restarts at it |
| ReadSide.ReceiveAllConserves | src/reactor.rs:393-416 | over any reads and replacements, frames followed by waiting bytes are the surviving bytes; the frame count is the sum of n / s |
| ReadSide.NothingLostExactly | src/reactor.rs:407-416 | no byte is lost if and only if every replacement finds residue zero |
| ReadSide.FirstBufferKeepsAll | src/reactor.rs:393-416 | as long as what arrives fits the buffer and leaves the minimum window, nothing is lost and the buffer is the stream, however it is cut into reads |
| ReadSide.ReceiveAllWaits | src/reactor.rs:396-416 | over any reads and replacements the number of waiting bytes is the one computed from the read sizes |
| ReadSide.DeliveredInOrder | src/reactor.rs:396-415 | delivered frames are the first chunks of the surviving bytes, all of them if and only if the read sizes leave less than a frame waiting; those since the last replacement lead up to the marker |
| ReadSide.DeliveredWholeExactly | src/reactor.rs:393-416 | the frames carry the whole stream if and only if, by the read sizes, every replacement finds nothing waiting and nothing waits at the end |
| ReadSide.AlignedDelivery | src/reactor.rs:393-416 | if every read is a whole number of frames, the messages are exactly the stream cut into frames |
| ReadSide.FragmentationMatters | src/reactor.rs:396-406 | two bytes in one read make a frame, in two reads none |
| ReadSide.WindowStaysOpenExactly | src/reactor.rs:407-416 | every read from every state leaves the minimum window if and only if the minimum is zero or fits beside s - 1 leftover bytes |
| ReadSide.WindowNeverClosesExactly | src/reactor.rs:407-416 | from every state with a free window every read leaves one, if and only if the minimum is above zero and a frame fits the buffer (or the buffer size is zero) |
| ReadSide.ClosedWindowEndsReading | src/reactor.rs:407-416 | with a minimum of zero a full buffer is never replaced: no later read changes or delivers anything |
| WriteSide.WriteFrontConserves | src/reactor.rs:132-153 | one write moves bytes from the queue to the wire |
| WriteSide.ReadyTurnShrinksExactly | src/reactor.rs:138-145 | a ready turn of the drain loop shrinks the work left if and only if it took a byte or the front buffer was empty |
| WriteSide.DrainConserves | src/reactor.rs:130-155 | the drain loop ends, loses nothing, and stops only when empty or not ready; the writes not answered by zero bytes are at most bytes + buffers + 1, which bounds all writes if no such answer occurs |
| WriteSide.DrainCuts | src/reactor.rs:138-145 | draining leaves a tail of the queue, cut inside a buffer: none that is completely written stays |
| WriteSide.DrainedExactly | src/reactor.rs:130-155 | of non-empty buffers only non-empty ones are left, and none if and only if every byte is on the wire |
| WriteSide.TurnsConserve | src/reactor.rs:133-153 | against any socket, no number of turns loses a byte or takes one back from the wire |
| WriteSide.EndedTurnsDrain | src/reactor.rs:133-153 | turn by turn, an ended loop is in the state of the drain function |
| WriteSide.EnoughTurnsDrain | src/reactor.rs:133-153 | on a socket that never answers zero bytes, bytes + buffers + 1 turns end the loop there |
| WriteSide.StallChangesNothing | src/reactor.rs:138-145 | against answers of zero bytes only, any number of turns leaves queue and wire as they were |
| WriteSide.SpinsExactly | src/reactor.rs:133-153 | against any socket the loop runs for ever if and only if at some turn a non-empty front buffer meets nothing but zero-byte answers from then on |
| WriteSide.RecoversExactly | src/reactor.rs:133-153 | a socket does not answer zero bytes for ever from some write on, if and only if the loop on it ends from every state |
| Reactor.Connection.DrainWriteQueueToSocket | src/reactor.rs:130-155 | the loop on the objects computes the drain function and returns the queue length |
| Reactor.Connection.CutFrames | src/reactor.rs:397-406 | the append loop delivers the chunks of the slice and advances the marker by their bytes |
| Reactor.Connection.TakeIn | src/reactor.rs:393-417 | fill, slice, append loop and replacement on the objects are one step of the read function |
| Reactor.Engine.Open | src/reactor.rs:371-386 | a new connection joins the table and shares no object with the others |
| Reactor.Engine.Notify | src/reactor.rs:451-463 | enqueue, drain and register on one connection; all others unchanged; unknown tokens ignored |
| Reactor.Engine.Writable | src/reactor.rs:440-448 | drain and register on one connection; all others unchanged |
| Reactor.Engine.Readable | src/reactor.rs:387-437 | read, put the new frames on the channel under the token, then re-register or, on a hang-up hint, remove |
| ReactorRuns.HandleAgrees | src/reactor.rs:364-463 | every event keeps every connection in agreement with what the outside world sent and posted |
| ReactorRuns.EveryConnectionConserves | src/reactor.rs:364-463 | in every run, each open connection: wire plus queue is the messages to its token in order; frames plus waiting bytes are the surviving bytes; a non-empty queue is registered for writable |
| ReactorRuns.IdleExactly | src/reactor.rs:440-463 | in every run a connection's queue is a tail of its messages; if none was empty, the queue is empty if and only if all messages are on the wire |
| ReactorRuns.FlushesWrite | src/reactor.rs:440-463 | every message or writable event of a connection writes until all that is queued is written or the socket refuses; no other event writes |
| ReactorRuns.BacklogIsRemembered | src/reactor.rs:440-463 | the writable interest of an open connection is set if and only if a message or writable event since its opening left bytes queued |
| ReactorRuns.RegistrationExactly | src/reactor.rs:307-463 | after every run, the exact flags registered for a connection, from whether it was accepted, has been readable, and had a backlog |
| ReactorRuns.ReadRegistrationExactly | src/reactor.rs:424-463 | a connection is registered for reading if and only if it was readable before or no event since its opening left a backlog |
| ReactorRuns.EarlyBacklogMutesReading | src/reactor.rs:451-463 | a first message that would block replaces the registration by one without readable |
| ReactorRuns.OpenExactly | src/reactor.rs:424-436 | the table holds exactly the tokens opened and not hung up since |
| ReactorRuns.ChannelCarriesEveryLife | src/reactor.rs:393-436 | in every run the frames tagged with a token are those of each connection it named, in order, the last read before a hang-up included |
| Processors.Subscriber.OnComplete | src/default_macros.rs:21-30 | completion reaches the end of the chain, or panics at an empty slot |
| Processors.Subscriber.OnNext | src/processorimpl.rs:38-503 | every implementation's `on_next` on the objects is one push of the specification |
| Processors.Subscriber.ForwardBoth | src/processorimpl.rs:440-447 | `Unzip` always pushes both halves and or-s the results |
| Processors.Subscriber.Ration | src/processorimpl.rs:494-503 | `Take` counts, passes on up to its limit, then completes the subscriber and stops |
| Publishers.IterPublisher.Next | src/publisherimpl.rs:104-114 | one item or the completion is pushed; without subscriber, stop |
| Publishers.IterPublisher.Run | src/reactive.rs:43-51 | the loop pulls what the specification pulls, and into an accepting chain its output is the composed list functions of the source |
| Publishers.Coupler.TryNext | src/publisherimpl.rs:157-168 | item, nothing yet, or completion when the sender is gone |
| Publishers.Coupler.Next | src/publisherimpl.rs:146-154 | the same once there is an item or no sender |
| Publishers.Repeat.Run | src/publisherimpl.rs:199-204 | the loop ends, with the chain and the result of the repeated run, for every chain on which it can end |
| Publishers.RepeatIsLongEnoughRun | src/publisherimpl.rs:199-204 | repeating equals running an iterator over any large enough number of copies, and ends by stop or, in an unwired chain, by a panic |
| Publishers.RepeatEndsExactly | src/publisherimpl.rs:199-204 | some number of copies ends the loop if and only if the first `Take` has a subscriber or, without a `Take`, the queue's receiver is gone |
| Pipelines.PushIsFeed | src/processorimpl.rs:38-503 | pushing one item depth first leaves every stage, with its record of calls, as stage-by-stage evaluation does; wired chains never panic |
| Pipelines.FeedAppend | src/reactive.rs:43-51 | feeding calls in two instalments is feeding them at once |
| Pipelines.KeepsExactly | src/processorimpl.rs:440-503 | "keep going" if and only if the sink accepts and was given an item, through any `Unzip`s and `Take`s |
| Pipelines.StopIsFinal | src/processorimpl.rs:440-503 | after "stop" every later push says stop and adds no output |
| Pipelines.ThroughComputes | src/processorimpl.rs:178-503 | the items reaching the sink are the composed list functions of the items pushed |
| PipelineRuns.RunIsFeed | src/reactive.rs:43-51 | a whole run is stage-by-stage evaluation of the calls it makes |
| PipelineRuns.RunComputes | src/subscriber.rs:81-84 | for every wired chain and source, running into an accepting sink adds exactly the list functions of the whole source |
| PipelineRuns.EnumerateNumbers | src/processorimpl.rs:325-345 | a run into a fresh `Enumerate` numbers the items from zero, modulo 2^64 |
| PipelineRuns.RunPanicsExactly | src/default_macros.rs:21-30 | a run panics if and only if the chain is not subscribed down to a sink |
| UnsubscribedChains.UnsubscribedRun | src/processorimpl.rs:175-503 | a processor nobody subscribed to takes the whole source, sends nothing and panics at the completion; `Reduce` folds all the same |
| UnsubscribedChains.PanicIsLast | src/default_macros.rs:21-30 | in every run into an unsubscribed chain the panic comes with the first completion at the last stage, and nothing is pushed after it |
| UnsubscribedChains.RunKeepsCounts | src/processorimpl.rs:494-503 | in every run into any chain each `Take` has counted the items it was given, however the run ended |
| UnsubscribedChains.PanicNotifiesNobody | src/processorimpl.rs:494-503 | in an unsubscribed chain no `Take` comes to note that it notified its subscriber |
| PipelineRuns.NoItemAfterCompletion | src/default_macros.rs:21-30 | no stage is given an item after a completion (rule 1.7 of the Reactive Streams specification) |
| PipelineRuns.SinkIsCompleted | src/processorimpl.rs:494-503 | the sink hears at least one completion per run |
| PipelineRuns.CompletesOnceExactly | src/processorimpl.rs:440-503 | every source completes the sink exactly once if and only if a condition on the `Take` limits and `Unzip`s of the chain holds |
| PipelineRuns.ExactlyOneCompletion | src/publisherimpl.rs:104-114 | in particular exactly one if no `Unzip` feeds a `Take` |
| PipelineRuns.UnzipMayCompleteAgain | src/processorimpl.rs:440-503 | `Unzip` into `Take(1)`: two pairs complete the sink three times |
| PipelineRuns.PullsExactly | src/processorimpl.rs:440-503 | a run pulls the whole source or one more than the items that get anything to the sink, each `Unzip` halving the limit below it, rounded up |
| PipelineRuns.TakesFirstIsSmallest | src/processorimpl.rs:494-503 | that limit is the smallest `Take` limit where no `Unzip` feeds a `Take` |
| PipelineRuns.RecordersCopyExactly | src/processorimpl.rs:393-398 | a tee's queue gets exactly what its subscriber gets, the earlier stages applied to the pulled items; so do `Do` and `DoDebug`, and `DebugWhile` prints those its predicate chose |
| PipelineRuns.TakeCountsExactly | src/processorimpl.rs:494-503 | a fresh `Take` ends a run having counted the items it got and notified exactly if they were more than its limit |
| PipelineRuns.TakelessNeverStops | src/processorimpl.rs:494-503 | without a `Take`, an accepting chain always keeps going |
| Split.UninterruptedCallIsPush | src/subscriber.rs:53-61 | an uninterrupted producer call in the step system is the push into the decoupler, result included |
| Split.StepKeepsInv | src/publisherimpl.rs:146-168 | every step of either thread keeps stages, queue and outputs consistent |
| Split.SplitIsPrefixOfFused | src/subscriber.rs:53-61 | in every interleaving taken + queue is sent while the receiver lives, and the output is a prefix of the fused pipeline's |
| Split.SplitEqualsFused | src/publisherimpl.rs:146-168 | when the consumer's loop has ended, and the sender outlived the producer's loop if the queue ran dry, the outputs are equal |
| Split.EffectiveStepsBounded | src/publisherimpl.rs:146-168 | in every interleaving the steps that change anything are at most twice the calls on the decoupler plus the items plus four |
| Split.StuckHasEnded | src/publisherimpl.rs:146-168 | when neither thread can move and the receiver is there, the producer has ended, and the consumer has ended or waits with an empty queue for a live sender |
| Split.StuckEqualsFused | src/publisherimpl.rs:146-168 | then, unless the sender was dropped too early, the output is the fused pipeline's |
| Split.EveryRunCanFinish | src/publisherimpl.rs:146-168 | from any point of any interleaving, enough turns of both threads put out what the fused pipeline does |
| SplitRuns.SeveredCallIsPush | src/subscriber.rs:53-61 | with the receiver gone, an uninterrupted producer call sends nothing and is told to stop, as a push above a closed decoupler is |
| SplitRuns.KeptMeansSent | src/subscriber.rs:53-61 | in every interleaving, up to the next call, the producer is told to keep going if and only if something was sent |
| SplitRuns.SeveredProducerEnds | src/subscriber.rs:53-61 | once the receiver is gone nothing more is sent, at most one more item is pulled in whatever follows, and after enough turns the producer's loop has ended |
| SplitRuns.SplitIsTwoRuns | src/publisherimpl.rs:104-168 | in every interleaving, each thread whose loop has ended pulled the items and left the stages and records of a run of its own |

## Left out

- Reactive.OnNext: the counter of `Take` is unbounded here; in the source it is a `usize` that would wrap after 2^64 items reach one stage (the counter of `Enumerate` wraps as in the source). Items are untyped values, so `Unzip` of a plain item, which the source's types exclude, sends that item twice. Closures are total functions without side effects of their own.
- Publishers.Repeat.Run: only for chains on which the loop of the source ends; `Publishers.RepeatEndsExactly` says which these are.
- Split.Start: a producer `next` works through its own stages in one step, since only its own thread sees them; each send on the queue is a separate step. Bounded queues that block the sender are not modelled.
- ReadSide.Receive: the frame size must be positive; with size zero the append loop of the source does not end. Buffer sizes are taken to fit the source's 32-bit fields.
- WriteSide.Drain: only for sockets that do not answer "ready, zero bytes" for ever; on the others no handler returns (`WriteSide.SpinsExactly`), and `WriteSide.TurnsConserve` says what holds of the loop until then.
- Several regions mapped over one file at the same time, and calling `new` on a file in use.
- The mapping itself, its pointers and system calls, and failures of `open`, `mmap` and `madvise`: a block is an offset.
- The event loop, listening, connecting, timers, and reuse policy of tokens: events arrive in any order, and a fresh token is one that is not in the table.
- Which listener's queue a frame goes to: all of them are one channel here, with the token on every frame.
- Errors passed down with `on_error`: forwarded like completions, and raised by no publisher of the repository. The `index` set by `on_subscribe` is never read.
- `RndGen`, `StdoutSubscriber`, `NetStream`, `NetStreamer`, the scheduler loop and logging.
- The strategies of the repository's README (broadcast, round robin, request counts), which the code does not contain.
