# Verified models of the Booster Robotics SDK's middleware headers

Three independent parts of the SDK's headers, modelled in Dafny and proved correct or shown where they are not.

**Callback dispatch** (`dds_entity.hpp`). A reader listener queues samples from DDS threads under one of three
overflow policies and hands a single drain task to an executor, a shared pool or a dedicated thread.
`ListenerQueue.dfy` is the queue with its history, `CallbackExecutor.dfy` the task queue with its condition variable,
`Dispatch.dfy` the system of any number of listeners, arrival threads and workers in which every locked block is one
step. `DispatchInvariant.dfy`, `DispatchTheorems.dfy` and `DispatchProgress.dfy` prove safety over all runs and that
runs end; `ReaderListener.dfy` holds the objects, proved against the step functions. `dds_topic_channel.hpp` is
`TopicChannel.dfy`.

**CDR** (`Cdr.h`, `CdrSizeCalculator.hpp`, `FastCdr.h`, `FastBuffer.h`; section 7.4 of DDS-XTypes 1.3).
`CdrSpec.dfy` gives typed values, and reference encoders and decoders that compute every alignment from the position
alone. `CdrByteOrder.dfy` reads bytes as numbers in the order of the stream, on hosts of either byte order, and
`CdrLayout.dfy` says, without looking at how the encoder works, what the bytes of every encoding are.
`CdrRoundTrip.dfy`, `CdrLimits.dfy` and `CdrVectorsOfArrays.dfy` prove the round trip and exactly where it stops,
`CdrAccepted.dfy` what arbitrary accepted bytes amount to, `CdrExact.dfy` that truncated streams are refused and where
the decoder accepts exactly the encodings; `CdrFrame.dfy` that encodings stay valid while the buffer goes on changing;
`CdrAlignment.dfy` the bit formula and its cache; `CdrCodec.dfy` is the encoder and decoder object with back-patched
DHEADERs, rollback and a growing buffer. `CdrSize.dfy`, `CdrSizeExact.dfy` and `CdrSizeCalculator.dfy` are the
calculator, `CdrNextInt.dfy` what its marks promise. `FastCdr.dfy` is the codec without alignment.

**Containers of the XML library** (`tinyxml2.h`). `MemPool.dfy` is the block allocator with its free list,
`DynArray.dfy` the growable array.

`Basics.dfy` and `Counting.dfy` hold what several modules use. `dafny verify dfyconfig.toml` checks everything.

## Where the code falls short

- XCDRv2, vector of arrays of non-primitives: the encoder flattens the arrays (`Cdr.h:2836-2841`, reached from 800) and
  writes no DHEADER for them; the decoder (1854, then 1790-1817) expects one. `CdrVectorsOfArrays.RoundTripV2` says
  exactly which types round trip, `SolidFails` gives the value that does not.
- Without presence flags (XCDRv1, and PL_CDR2) nothing is written for an empty optional outside a member header
  (2668-2677), but the decoder always reads a value (2731-2740). `CdrLimits.RoundTripExactly` says which values come
  back: in XCDRv1 those without empty optionals, in PL_CDR2 also those whose empty ones end a delimited container.
- XCDRv2 vectors and maps write their count outside the `try` (791-796, 881-888): when the DHEADER fits and the count
  does not, the position stays after the DHEADER. `CdrCodec.Cdr.Serialize` says exactly when, and
  `CdrCodec.HeaderStaysBehind` gets there.
- XCDRv2 vectors, arrays and maps of non-primitives stop reading at the announced end and have no plausibility check on
  their count (1793-1811, 1832-1862, 1962-1992, against 1878): a few bytes are accepted as a vector or array of any
  length, full of defaults, or as a map with fewer entries than announced. `CdrAccepted.AcceptedUnread`,
  `AcceptedUnreadArray` and `AcceptedUnreadMap` say what was read and when that was everything.
- An XCDRv2 vector of non-primitives whose count is 0 is accepted before its DHEADER is compared with anything
  (1844-1848). `CdrAccepted.HeaderCheckedExactly`: this is the only container whose end is not checked.
- The sizer of optional members does not reset `serialized_member_size_` (`CdrSizeCalculator.hpp:1142-1206`, against
  1128): following members, plain or optional, can lose 4 bytes, and optionals leave `current_alignment` 4 short as
  well. `CdrSizeCalculator.ShortMembers` says which ones, `RunDeficit` what that adds up to over a type.
- A map of scalars leaves the mark of its last key (`CdrSizeCalculator.hpp:640-660`), so a PL_CDR2 member of such a map
  is sized as if the number of its entries were its length. `CdrNextInt.MarkMisleads`; `MarkTellsLength` and
  `MarkOtherwise` say that no other value does that.
- In XCDRv1 an empty vector of 8-byte scalars is sized with padding that is not written. `CdrSizeExact.InStepExactly`
  says when that goes unnoticed, `CdrSize.SizeBoundsV1` how far the sizes drift.

## Assumptions

- Dispatch: executor options and callback are fixed before the first sample (`dds_topic_channel.hpp:50-53`); callbacks
  do not throw; deleting a DDS reader waits for `on_data_available`; the last reference to a listener is not dropped
  on its own dedicated thread. `take_next_sample` is a batch of any length. A notify_one with sleepers wakes some one
  of them, and spurious wake-ups may happen at any time.
- Shared and dedicated executors differ only in the number of workers, so one model with n >= 1 workers stands for both;
  a listener only ever uses one of them. A callback may itself cause an arrival on the worker's thread.
- Channel: whether `create_datareader` and `create_datawriter` succeed is arbitrary; the result of the delete calls is
  ignored by the source and taken as done.
- CDR: the scalar readers and writers, the member-header writers and `resize` are compiled elsewhere. They
  are modelled by their documented contract: pad by `alignment(size)`, 8-byte scalars with `align64_` (8 in
  XCDRv1, 4 in XCDRv2); padding is skipped, not written, so it holds anything; arrays of scalars are the scalars one by
  one, none of them writes nothing; a bool is a byte that must be 0 or 1; `resize` keeps bytes and indices, or refuses.
  Host and stream are of either byte order; FastCdr has only the host's. The codec treats CORBA_CDR and DDS_CDR as it
  treats XCDRv1; the member sizers tell them apart, and so does the model.
- Arrays have at least one element. Decoding goes into a value-initialised target; floats are opaque words. A map is listed in iteration order
  with distinct keys. Iterators are a buffer and an index into it.
- `DynArray` and `MemPoolT`: callers respect the assertions of the source; memory given to `Free` came from `Alloc` of
  the same pool and is live. A live item's link is the user's memory, so nothing is assumed of it.

## Model

| member | source | states |
|---|---|---|
| `DispatchTheorems.SingleFlight` | include/booster/common/dds/dds_entity.hpp:370-387 | in every reachable state, while the listener lives, threads about to submit + queued drain tasks + workers inside one are 1 when `callback_scheduled_` is set and 0 otherwise |
| `DispatchTheorems.CallbacksNeverOverlap` | include/booster/common/dds/dds_entity.hpp:491-515 | two workers are never inside drain tasks of the same listener, and never inside one of a destroyed listener |
| `DispatchTheorems.NoStrandedSample` | include/booster/common/dds/dds_entity.hpp:376-387 | while samples wait, a thread is about to submit the drain task, or it is queued, or a worker is inside it |
| `DispatchTheorems.DeliveryOrder` | include/booster/common/dds/dds_entity.hpp:422-450 | delivered ++ in flight ++ pending lists in order of arrival exactly the samples that were not lost; at most one is in flight, in a worker's hand |
| `DispatchTheorems.WaitingPerPolicy` | include/booster/common/dds/dds_entity.hpp:427-456 | queue bound per policy; drop-oldest and latest-only keep the run of the newest samples; unbounded loses nothing; length <= high watermark <= bound |
| `DispatchTheorems.HighWaterMark` | include/booster/common/dds/dds_entity.hpp:452-456 | over any run, `queue_high_watermark` is no less than any length the queue has had, and the queue has had that length |
| `DispatchTheorems.NothingMeasured` | include/booster/common/dds/dds_entity.hpp:422-463 | without metrics every counter stays zero in every reachable state |
| `DispatchTheorems.MetricsConserved` | include/booster/common/dds/dds_entity.hpp:459-463 | received = dropped + executed + waiting + popped-but-uncounted at every interleaving point, and at most one is uncounted |
| `DispatchTheorems.AcceptedStays` | include/booster/common/dds/dds_entity.hpp:428-434 | over any run, under drop-newest, what was accepted is never reordered or taken back |
| `DispatchTheorems.RestIsFresh` | include/booster/common/dds/dds_entity.hpp:499-507 | when nobody has a step left, the queue is empty and everything not lost was delivered; under drop-oldest and latest-only the last sample delivered is the last that arrived |
| `DispatchProgress.RestOrStep` | include/booster/common/dds/dds_entity.hpp:465-489 | no deadlock: a state that is not at rest has an enabled step (submit, notify, check, drain) |
| `DispatchProgress.WorldMayAct` | include/booster/common/dds/dds_entity.hpp:338-388 | nothing holds up the outside: batches of any length from any thread or, once per callback, from a worker, a stop, spurious wake-ups, and the end of a listener that nobody refers to |
| `DispatchProgress.RunsEnd` | include/booster/common/dds/dds_entity.hpp:491-567 | without arrivals, stops and spurious wake-ups, the number of steps is bounded by a measure of the state, for any number of workers and listeners |
| `DispatchProgress.MaximalRunDelivers` | include/booster/common/dds/dds_entity.hpp:491-567 | a run that cannot be prolonged has delivered every sample that was not dropped |
| `DispatchInvariant.InvKept` | include/booster/common/dds/dds_entity.hpp:338-567 | every interleaved step (arrival, submit, notify, check, begin, pop, callback, count, destroy) keeps the system invariant |
| `DispatchInvariant.RunInv` | include/booster/common/dds/dds_entity.hpp:338-567 | the invariant holds after runs of any length, and the options never change |
| `DispatchInvariant.NoUseAfterDestroyKept` | include/booster/common/dds/dds_entity.hpp:465-473 | every step keeps this: no worker past locking the weak pointer works on a destroyed listener |
| `DispatchInvariant.ServedAfterArrival` | include/booster/common/dds/dds_entity.hpp:370-383 | the locked block of an arrival keeps single flight, hand-over and the listener invariant, for every listener |
| `DispatchInvariant.ServedAfterPop` | include/booster/common/dds/dds_entity.hpp:498-520 | the locked block of the drain loop does too: it takes the oldest sample or clears the flag |
| `DispatchInvariant.ServedAfterCallBack` | include/booster/common/dds/dds_entity.hpp:522-549 | the callback appends exactly the sample in hand |
| `DispatchInvariant.ServedAfterCount` | include/booster/common/dds/dds_entity.hpp:551-565 | the metrics block counts exactly the call just made |
| `CallbackExecutor.InvKept` | include/booster/common/dds/dds_entity.hpp:126-180 | every step of the executor (submit, notify_one, stop, notify_all, wait-predicate check, task end, spurious wake-up) keeps order, at-most-once, wake-ups and shutdown |
| `CallbackExecutor.StartsInOrder` | include/booster/common/dds/dds_entity.hpp:126-132 | tasks start at most once and in the order of the submissions of the run, each with the target it was submitted for |
| `CallbackExecutor.RunRecorded` | include/booster/common/dds/dds_entity.hpp:126-149 | the executor's history is that of the run: every submission under its number, with its target, and marked late exactly when it came from outside after the stop |
| `CallbackExecutor.ShutdownDrains` | include/booster/common/dds/dds_entity.hpp:145-180 | once all workers have left, every submission of the run has finished that a task made or that came before the stop; only what an outside thread submitted after the stop is left in the queue |
| `CallbackExecutor.NoLostWakeUp` | include/booster/common/dds/dds_entity.hpp:158-176 | while a worker sleeps, every queued task has a notification to come or an awake worker, and a stop has its notify_all to come |
| `CallbackExecutor.QuietIsDone` | include/booster/common/dds/dds_entity.hpp:158-180 | at rest no task waits; after a stop all workers have left |
| `CallbackExecutor.WakeUpsKept` | include/booster/common/dds/dds_entity.hpp:126-176 | the counting behind no lost wake-up, step by step, for any number of workers |
| `ListenerQueue.AdmitAllKeeps` | include/booster/common/dds/dds_entity.hpp:422-450 | a batch leaves exactly the first `capacity`, the last `capacity`, or the last sample of queue ++ batch |
| `ListenerQueue.BatchOutcome` | include/booster/common/dds/dds_entity.hpp:422-450 | a batch in terms of the configured capacity: the queue fills up to it and no further, holds the first or the last samples of all, or the last one, and whatever is missing was lost |
| `ListenerQueue.BatchMetrics` | include/booster/common/dds/dds_entity.hpp:422-463 | a batch adds its length to received and its losses to dropped, executes nothing, and makes the watermark the larger of the old one and the greatest length of the queue during the batch; without metrics it records nothing |
| `ListenerQueue.ArriveWatermark` | include/booster/common/dds/dds_entity.hpp:452-456 | an arrival raises the watermark exactly to the length of the queue after it, if that is greater |
| `ListenerQueue.AdmitAllConserves` | include/booster/common/dds/dds_entity.hpp:422-463 | no sample is duplicated or forgotten by a batch: queue and losses together, as multisets |
| `ListenerQueue.DropNewestKeeps` | include/booster/common/dds/dds_entity.hpp:428-434 | under drop-newest a batch only extends the queue at its end |
| `ListenerQueue.ArriveSound` | include/booster/common/dds/dds_entity.hpp:370-383 | an arrival keeps the listener invariant and asks for a task exactly when it set the flag |
| `ListenerQueue.PopSound` | include/booster/common/dds/dds_entity.hpp:498-520 | popping keeps the invariant, changes no survivor and clears exactly on an empty queue |
| `ListenerQueue.Conservation` | include/booster/common/dds/dds_entity.hpp:422-463 | received = dropped + popped + waiting for every listener state that satisfies the invariant |
| `ListenerQueue.UnboundedLosesNothing` | include/booster/common/dds/dds_entity.hpp:422-450 | with capacity 0 and a drop policy the survivors are all that arrived |
| `ReaderListener.DdsReaderListener.EnqueuePendingMessageLocked` | include/booster/common/dds/dds_entity.hpp:422-463 | queue, losses and metrics after one message are those of the policy function |
| `ReaderListener.DdsReaderListener.RecordDropLocked` | include/booster/common/dds/dds_entity.hpp:459-463 | drops are counted only with metrics on |
| `ReaderListener.DdsReaderListener.OnDataAvailable` | include/booster/common/dds/dds_entity.hpp:338-388 | the loop over the batch and the flag do what the arrival step of the system does; nothing happens without handler, messages or after a stop |
| `ReaderListener.DdsReaderListener.PopLocked` | include/booster/common/dds/dds_entity.hpp:498-520 | does what the pop step does, and returns the message that arrived under the popped number |
| `ReaderListener.DdsReaderListener.Call` | include/booster/common/dds/dds_entity.hpp:522-549 | one callback with the popped message |
| `ReaderListener.DdsReaderListener.CountLocked` | include/booster/common/dds/dds_entity.hpp:551-565 | one execution counted |
| `ReaderListener.DdsReaderListener.ExecutePendingCallbacks` | include/booster/common/dds/dds_entity.hpp:491-567 | without interference the loop ends after exactly the queued messages, delivered in order, with the flag cleared and the executions counted |
| `ReaderListener.DdsReaderListener.Destructor` | include/booster/common/dds/dds_entity.hpp:302-307 | queue and flag cleared, stop set, metrics kept |
| `ReaderListener.DdsCallbackExecutor.SubmitLocked` | include/booster/common/dds/dds_entity.hpp:127-130 | the locked block appends, as the submit step of the executor model |
| `ReaderListener.DdsCallbackExecutor.NotifyOne` | include/booster/common/dds/dds_entity.hpp:131 | when workers wait, exactly one of them is woken and nobody else is touched; with the notification spent, every queued task still has a wake-up to come or a worker about to look |
| `ReaderListener.DdsCallbackExecutor.RequestStop` | include/booster/common/dds/dds_entity.hpp:146-149 | the stop is visible under the lock, as the stop step of the executor model |
| `ReaderListener.DdsCallbackExecutor.NotifyAll` | include/booster/common/dds/dds_entity.hpp:150 | nobody waits any more, and running and exited workers are left alone |
| `ReaderListener.DdsCallbackExecutor.Take` | include/booster/common/dds/dds_entity.hpp:160-176 | the locked block of Run: oldest task, leave after a stop, or wait, as the check step of the executor model |
| `ReaderListener.DdsCallbackExecutor.Run` | include/booster/common/dds/dds_entity.hpp:259-287 | a worker alone after a stop runs all queued tasks in order and leaves |
| `CdrRoundTrip.RoundTrip` | include/booster_fastdds/fastcdr/Cdr.h:747-948 | every readable value of scalars, vectors, arrays, maps and optionals, but for vectors of arrays of non-primitives in XCDRv2: decoding the encoding gives the same value and stops where the encoder stopped, whatever the padding holds and whatever follows |
| `CdrLimits.RoundTripExactly` | include/booster_fastdds/fastcdr/Cdr.h:1789-2054 | in every version and encoding, such a value comes back if and only if it is readable: no empty optional without presence flag, but for trailing elements of a delimited vector or array |
| `CdrLimits.DecodedReadable` | include/booster_fastdds/fastcdr/Cdr.h:2727-2742 | whatever the bytes, a decoded value is readable |
| `CdrLimits.FlaggedReadable` | include/booster_fastdds/fastcdr/Cdr.h:2665-2678 | with presence flags every value is readable |
| `CdrLimits.PlainReadable` | include/booster_fastdds/fastcdr/Cdr.h:2665-2678 | in XCDRv1 readable means without empty optionals |
| `CdrLimits.OnlyTrailingBlanks` | include/booster_fastdds/fastcdr/Cdr.h:1850-1856 | in PL_CDR2 a vector of optionals with the empty one at its end is readable, with the empty one in front it is not |
| `CdrLimits.RoundTripV1` | include/booster_fastdds/fastcdr/Cdr.h:2727-2742 | XCDRv1: a value comes back if and only if none of its optionals is empty |
| `CdrLimits.EmptyOptionalFails` | include/booster_fastdds/fastcdr/Cdr.h:2727-2742 | the smallest empty optional that XCDRv1 cannot read back |
| `CdrVectorsOfArrays.RoundTripV2` | include/booster_fastdds/fastcdr/Cdr.h:2834-2841 | XCDRv2, with or without presence flags: all readable values of a type come back if and only if the type has no vector of arrays of non-primitives |
| `CdrVectorsOfArrays.SolidFails` | include/booster_fastdds/fastcdr/Cdr.h:1832-1862 | the failing value of every other type, from any buffer at any position, in either byte order and of any size |
| `CdrVectorsOfArrays.DecodeBehind` | include/booster_fastdds/fastcdr/Cdr.h:1790-1817 | a decoder that returns that value stands at least a DHEADER behind the place where the encoder stopped |
| `CdrAccepted.DecodedTyped` | include/booster_fastdds/fastcdr/Cdr.h:1789-2054 | whatever bytes are accepted, the value has the type asked for: lengths, array sizes, distinct keys |
| `CdrAccepted.AcceptedUnread` | include/booster_fastdds/fastcdr/Cdr.h:1832-1862 | an accepted XCDRv2 vector of non-primitives has the announced number of elements, of which at most one per byte was read and the rest are defaults; all were read if and only if the loop gives the same answer without the DHEADER |
| `CdrAccepted.AcceptedUnreadArray` | include/booster_fastdds/fastcdr/Cdr.h:1793-1811 | the same for arrays of non-primitives |
| `CdrAccepted.AcceptedUnreadMap` | include/booster_fastdds/fastcdr/Cdr.h:1962-1992 | an accepted XCDRv2 map of non-primitives has at most the entries that were read, of two bytes or more each; all announced ones were read if and only if the loop gives the same answer without the DHEADER |
| `CdrAccepted.HeaderCheckedExactly` | include/booster_fastdds/fastcdr/Cdr.h:1844-1862 | an accepted delimited container ends where its DHEADER says, if and only if it is not an empty vector with another DHEADER |
| `CdrAccepted.ArrayWithoutElements` | include/booster_fastdds/fastcdr/Cdr.h:1794-1811 | four zero bytes are accepted as an array of any size |
| `CdrAccepted.CountWithoutEntries` | include/booster_fastdds/fastcdr/Cdr.h:1976-1992 | eight bytes are accepted as an empty map, whatever number of entries they announce |
| `CdrAccepted.EmptyVectorUnchecked` | include/booster_fastdds/fastcdr/Cdr.h:1844-1848 | an empty vector is accepted whatever its DHEADER says |
| `CdrAccepted.CountWithoutElements` | include/booster_fastdds/fastcdr/Cdr.h:1832-1862 | eight bytes are accepted as a vector of any announced length, since only the XCDRv1 path compares the count with the bytes left (1878) |
| `CdrCodec.ReadBack` | include/booster_fastdds/fastcdr/Cdr.h:1789-2054 | what the encoder object left in the buffer, the decoder object reads back |
| `CdrLayout.ScalarLayout` | include/booster_fastdds/fastcdr/Cdr.h:2880-2895 | every scalar in every version: padding to the next multiple of its size (of 4 for 64 bits in XCDRv2), then bytes that, read in the order of the stream, are its number on the host |
| `CdrLayout.OptionalLayout` | include/booster_fastdds/fastcdr/Cdr.h:2665-2678 | in XCDRv2 outside PL_CDR2 one byte, 1 or 0, and the value if there is one; otherwise the value or nothing |
| `CdrLayout.VectorLayout` | include/booster_fastdds/fastcdr/Cdr.h:782-853 | count and elements directly after it; a word with the number of bytes that follow stands in front in XCDRv2 when the elements are not scalars, and never otherwise |
| `CdrLayout.ArrayLayout` | include/booster_fastdds/fastcdr/Cdr.h:747-774 | the elements of all dimensions one after another; the word in front only in XCDRv2 when the innermost elements are not scalars |
| `CdrLayout.MapLayout` | include/booster_fastdds/fastcdr/Cdr.h:868-948 | number of entries, then keys and values in turn; the word in front only in XCDRv2 when the values are not scalars |
| `CdrLayout.VectorOfScalars` | include/booster_fastdds/fastcdr/Cdr.h:829-853 | in every version: count, one padding, scalars; exact length |
| `CdrLayout.ArrayOfScalars` | include/booster_fastdds/fastcdr/Cdr.h:747-774 | an array of scalars of any dimension starts with its first scalar; exact length, from the product of the dimensions |
| `CdrLayout.ScalarInRow` | include/booster_fastdds/fastcdr/Cdr.h:998-1007 | where the k-th scalar of a vector or array stands, and its number there |
| `CdrLayout.MapOfScalars` | include/booster_fastdds/fastcdr/Cdr.h:925-948 | in every version: number of entries, then the entries; exact length, which is also what the calculator returns |
| `CdrLayout.SmallestMap` | include/booster_fastdds/fastcdr/Cdr.h:925-948 | a map of one byte to one byte takes six bytes in every version, and is sized so |
| `CdrLayout.ScalarArrays` | include/booster_fastdds/fastcdr/Cdr.h:758 | is_multi_array_primitive in terms of the innermost type |
| `CdrByteOrder.OrderedNumber` | include/booster_fastdds/fastcdr/Cdr.h:74-79 | swapping when the stream's order is not the host's keeps the number, for any width and both hosts |
| `CdrByteOrder.NumberInjective` | include/booster_fastdds/fastcdr/Cdr.h:74-79 | number, order and width leave no choice of bytes, so these laws fix every byte |
| `CdrByteOrder.EncodedLength` | include/booster_fastdds/fastcdr/Cdr.h:796 | every length word, read in the order of the stream, is the length modulo 2^32, on both hosts |
| `CdrByteOrder.EncodedNumber` | include/booster_fastdds/fastcdr/Cdr.h:395-418 | every encoded scalar is, in the order of the stream, its number on the host |
| `CdrByteOrder.DecodedNumber` | include/booster_fastdds/fastcdr/Cdr.h:1408-1422 | every decoded scalar is, on the host, the number of its bytes in the order of the stream |
| `CdrByteOrder.DecodedLength` | include/booster_fastdds/fastcdr/Cdr.h:1840 | every decoded length is the number of its four bytes in the order of the stream |
| `CdrExact.TruncatedRefused` | include/booster_fastdds/fastcdr/Cdr.h:1789-2054 | for every type and version: a stream that was accepted is refused with not-enough-memory as soon as any byte before its end is missing, and bytes after its end do not matter |
| `CdrExact.AcceptsExactlyEncodings` | include/booster_fastdds/fastcdr/Cdr.h:1908-1936 | without DHEADERs and maps, in buffers below 2^32 bytes, the decoder accepts exactly the encodings of readable values, with that value and that end, and nothing else |
| `CdrExact.MapHeldExactly` | include/booster_fastdds/fastcdr/Cdr.h:2014-2054 | the bytes of an accepted map without DHEADER are its encoding if and only if no key occurred twice |
| `CdrExact.FlagRefused` | include/booster_fastdds/fastcdr/Cdr.h:2727-2742 | a presence flag is 0 for empty, and a bad parameter when it is neither 0 nor 1 |
| `CdrExact.NoBadParamV1` | include/booster_fastdds/fastcdr/Cdr.h:1864-1895 | XCDRv1 only ever reports not-enough-memory |
| `CdrAccepted.FirstValueStays` | include/booster_fastdds/fastcdr/Cdr.h:2030-2045 | an accepted map holds, for every key that was read, the value of its first occurrence, in the order of the first occurrences |
| `CdrAccepted.ZerosAreDefault` | include/booster_fastdds/fastcdr/Cdr.h:1789-2054 | what is read from zeros is the default of the type |
| `CdrFrame.EncodeFrame` | include/booster_fastdds/fastcdr/Cdr.h:747-948 | an encoding depends on the buffer only through the padding bytes inside it, and its length not at all |
| `CdrFrame.DelimitedFromParts` | include/booster_fastdds/fastcdr/Cdr.h:764-772 | a DHEADER word equal to the exact number of bytes after it completes a delimited container, at any depth |
| `CdrCodec.Cdr.PatchDHeader` | include/booster_fastdds/fastcdr/Cdr.h:809-818 | the patched word is the exact length of the body; every other byte, the position and the cache are unchanged, whether or not the buffer was replaced in between |
| `CdrCodec.Cdr.Serialize` | include/booster_fastdds/fastcdr/Cdr.h:747-948 | the encoder leaves the reference encoding, succeeds exactly when it fits below the limit, and a failed vector or map restores position and cache, unless only its count failed after its DHEADER |
| `CdrCodec.HeaderStaysBehind` | include/booster_fastdds/fastcdr/Cdr.h:784-807 | a four-byte buffer in which the DHEADER of a failed vector stays behind |
| `CdrCodec.Cdr.SerializeContainer` | include/booster_fastdds/fastcdr/Cdr.h:784-820 | DHEADER, content, patch |
| `CdrCodec.Cdr.SerializeBody` | include/booster_fastdds/fastcdr/Cdr.h:796-807 | count and elements; an element that fails sends a counted container back to its start |
| `CdrCodec.Cdr.SerializeArray` | include/booster_fastdds/fastcdr/Cdr.h:998-1007 | elements one after another |
| `CdrCodec.Cdr.SerializeElement` | include/booster_fastdds/fastcdr/Cdr.h:2836-2841 | an array met as an element is written flat |
| `CdrCodec.Cdr.SerializeEntries` | include/booster_fastdds/fastcdr/Cdr.h:892-896 | keys and values alternate in iteration order |
| `CdrCodec.Cdr.SerializeOptional` | include/booster_fastdds/fastcdr/Cdr.h:2665-2678 | presence flag only in XCDRv2 outside PL_CDR2, value only when present |
| `CdrCodec.Cdr.SerializeAs` | include/booster_fastdds/fastcdr/Cdr.h:395-418 | another endianness for one value: the bytes of a scalar, in that order, are its number on the host; the stream's own order is back afterwards, also after a failure |
| `CdrCodec.Cdr.SerializeWord` | include/booster_fastdds/fastcdr/Cdr.h:2880-2895 | padding by the cached alignment, skipped and not written; the scalar's bytes, in the order of the stream, are its number on the host; nothing else changes; a failure changes nothing |
| `CdrCodec.Cdr.DeserializeWord` | include/booster_fastdds/fastcdr/Cdr.h:2880-2895 | a scalar that is not all there is not read; otherwise its number on the host is that of its bytes in the order of the stream |
| `CdrCodec.Cdr.Resize` | include/booster_fastdds/fastcdr/FastBuffer.h:72-79 | a longer buffer with the same bytes; positions carry over as indices |
| `CdrCodec.Cdr.MakeAlignment` | include/booster_fastdds/fastcdr/Cdr.h:2890-2895 | moves the position and forgets the last data size |
| `CdrCodec.Cdr.ResetAlignment` | include/booster_fastdds/fastcdr/Cdr.h:305-309 | the origin moves to the position; the cache stays sound |
| `CdrCodec.Cdr.SetState` | include/booster_fastdds/fastcdr/Cdr.h:104-140 | a saved state restores position, origin, byte order and cache |
| `CdrCodec.Cdr.Deserialize` | include/booster_fastdds/fastcdr/Cdr.h:1789-2054 | the reference decoder's value, error and position; scalars and containers without DHEADER restore position and cache on an error |
| `CdrCodec.Cdr.DeserializeDelimited` | include/booster_fastdds/fastcdr/Cdr.h:1793-1862 | the reference decoder's answer and position: the loop stops at the announced end or after its count, and must then stand at that end; a vector of count 0 is accepted without that comparison |
| `CdrCodec.Cdr.DeserializePlain` | include/booster_fastdds/fastcdr/Cdr.h:1908-1936 | count, plausibility check, elements, and the way back on an error |
| `CdrCodec.Cdr.DeserializeItems` | include/booster_fastdds/fastcdr/Cdr.h:2115-2126 | element loop, with or without a limit |
| `CdrCodec.Cdr.DeserializeEntries` | include/booster_fastdds/fastcdr/Cdr.h:2030-2045 | entry loop; a repeated key keeps its first value |
| `CdrCodec.Cdr.DeserializeOptional` | include/booster_fastdds/fastcdr/Cdr.h:2727-2742 | a present flag is read only in XCDRv2 outside PL_CDR2 |
| `CdrCodec.Cdr.DeserializeAs` | include/booster_fastdds/fastcdr/Cdr.h:1408-1430 | another endianness for one value: a scalar's number on the host is that of its bytes in that order |
| `CdrAlignment.AlignmentIsLeast` | include/booster_fastdds/fastcdr/Cdr.h:274-279 | for every power of two the formula is the least padding to a multiple |
| `CdrAlignment.AlignmentIsPadLen` | include/booster_fastdds/fastcdr/Cdr.h:2880-2884 | on scalar widths the formula is the reference padding |
| `CdrAlignment.ShortcutSound` | include/booster_fastdds/fastcdr/Cdr.h:2880-2884 | skipping the formula for data no wider than the last gives the same padding |
| `CdrAlignment.CacheAfterWord` | include/booster_fastdds/fastcdr/Cdr.h:3358-3374 | after any scalar min(last data size, align64) divides the offset from the origin |
| `CdrSize.SizeAgreesV2` | include/booster_fastdds/fastcdr/CdrSizeCalculator.hpp:493-660 | XCDRv2: the calculator returns exactly the bytes the encoder advances over, from the same position |
| `CdrSize.SizeBoundsV1` | include/booster_fastdds/fastcdr/CdrSizeCalculator.hpp:957-966 | XCDRv1: it never returns less, and at most 8 bytes more for each empty vector of 8-byte scalars, always a multiple of 4 |
| `CdrSizeExact.InStepExactly` | include/booster_fastdds/fastcdr/CdrSizeCalculator.hpp:957-966 | XCDRv1: calculator and encoder stand at the same position after every datum if and only if the count of every empty vector of 8-byte scalars ends on a multiple of 8 |
| `CdrSizeExact.VectorSizedExactly` | include/booster_fastdds/fastcdr/CdrSizeCalculator.hpp:526-545 | a vector of scalars is sized exactly if and only if it has an element or its count ends where an element could start |
| `CdrSizeExact.EmptyVectorMiscounted` | include/booster_fastdds/fastcdr/CdrSizeCalculator.hpp:957-966 | an empty vector at the origin is sized 8 and takes 4 bytes |
| `CdrSizeExact.LeadReached` | include/booster_fastdds/fastcdr/CdrSizeCalculator.hpp:957-966 | for every number of empty vectors there is a value that is sized 8 bytes too large for each of them, so the bound is reached |
| `CdrSizeExact.LeadAbsorbed` | include/booster_fastdds/fastcdr/CdrSizeCalculator.hpp:957-966 | the totals can agree although the two were out of step |
| `CdrSize.EncodeBulk` | include/booster_fastdds/fastcdr/CdrSizeCalculator.hpp:862-1025 | bulk sizing of scalars, also in arrays of any dimension, is element-by-element encoding with one padding |
| `CdrSizeCalculator.RunKeepsCongruence` | include/booster_fastdds/fastcdr/CdrSizeCalculator.hpp:1069-1206 | over any run of member sizes the sum and `current_alignment` stay congruent modulo 4 |
| `CdrSizeCalculator.MemberKeepsCongruence` | include/booster_fastdds/fastcdr/CdrSizeCalculator.hpp:1069-1131 | one member call does, for both overloads, all encodings and any mark |
| `CdrSizeCalculator.PayloadBeforeHeader` | include/booster_fastdds/fastcdr/CdrSizeCalculator.hpp:1089-1124 | sizing a payload before its header is sound: whole words in front leave its encoded size unchanged |
| `CdrSizeCalculator.StaleMark` | include/booster_fastdds/fastcdr/CdrSizeCalculator.hpp:1069-1206 | for both overloads: a mark left by an earlier member takes 4 bytes off exactly the members longer than 8 bytes, in a PL_CDR2 type, of a value that keeps the mark; for optionals it takes them off `current_alignment` as well |
| `CdrSizeCalculator.MarkAfterValue` | include/booster_fastdds/fastcdr/CdrSizeCalculator.hpp:493-660 | what sizing does to the mark, from the structure of the value alone |
| `CdrSizeCalculator.ShortMembers` | include/booster_fastdds/fastcdr/CdrSizeCalculator.hpp:1069-1206 | in the members of a type, plain or optional, exactly the exposed ones come out 4 bytes short that an optional reaches: it leaves a mark, and only optionals that keep it stand in between |
| `CdrSizeCalculator.RunDeficit` | include/booster_fastdds/fastcdr/CdrSizeCalculator.hpp:1069-1206 | over all members of a type, against sizing each with a clear mark: 4 bytes less in total for every short member, 4 less in the alignment for every short optional, and nothing else |
| `CdrSizeCalculator.MemberParts` | include/booster_fastdds/fastcdr/CdrSizeCalculator.hpp:1069-1206 | for both overloads and every version, encoding and id, with a clear mark: size = padding to 4 where due + payload + header, and the alignment after it; an XCDRv1 header has 4 bytes when the id is at most 0x3F00 and the length fits 16 bits, else 12; a PL_CDR2 header 4 up to 8 bytes of payload or when the length word is joined, else 8; 0 where none is due |
| `CdrSizeCalculator.RunOfParts` | include/booster_fastdds/fastcdr/CdrSizeCalculator.hpp:1069-1206 | the size of a whole type is the sum of its members' paddings, headers and payloads, less 4 for every short member |
| `CdrSizeCalculator.HeaderExamples` | include/booster_fastdds/fastcdr/CdrSizeCalculator.hpp:1110-1119 | a 32-bit member takes 8 bytes under id 1 and 16 under id 0x3F01; as an optional of plain CDR it takes its header even when empty |
| `CdrNextInt.MarkTellsLength` | include/booster_fastdds/fastcdr/CdrSizeCalculator.hpp:1258-1263 | the mark left by a value that starts with a length word tells what the word counts: bytes, or elements of 4 or 8 bytes; word times that unit is exactly the length of the rest |
| `CdrNextInt.MarkOtherwise` | include/booster_fastdds/fastcdr/CdrSizeCalculator.hpp:526-543 | every other value but a map of scalars leaves no mark of its own, and a vector of 16-bit scalars takes it away |
| `CdrNextInt.MarkMisleads` | include/booster_fastdds/fastcdr/CdrSizeCalculator.hpp:640-660 | a map of scalars marked by its keys does not start with its length, and its PL_CDR2 member is sized 14 instead of 18 all the same |
| `CdrSizeCalculator.StaleOptionalExample` | include/booster_fastdds/fastcdr/CdrSizeCalculator.hpp:1142-1206 | the same array as an optional member is sized 16 instead of 20 and leaves the alignment at 16 instead of 20 |
| `CdrSizeCalculator.StaleMarkExample` | include/booster_fastdds/fastcdr/CdrSizeCalculator.hpp:1142-1206 | an array of three 32-bit scalars after an optional vector of them is sized 16 instead of 20 |
| `CdrSizeCalculator.SizeOfShift` | include/booster_fastdds/fastcdr/CdrSizeCalculator.hpp:1258-1263 | sizes depend on the alignment only modulo the widest alignment |
| `CdrSizeCalculator.SizeCalculator.CalculateSerializedSize` | include/booster_fastdds/fastcdr/CdrSizeCalculator.hpp:733-753 | returned size, alignment advanced by it, and the mark left behind |
| `CdrSizeCalculator.SizeCalculator.CalculateContainerSize` | include/booster_fastdds/fastcdr/CdrSizeCalculator.hpp:493-660 | the same for vectors, arrays and maps |
| `CdrSizeCalculator.SizeCalculator.CalculateArraySerializedSize` | include/booster_fastdds/fastcdr/CdrSizeCalculator.hpp:785-799 | element loop, or bulk formula for scalars |
| `CdrSizeCalculator.SizeCalculator.CalculateElementSize` | include/booster_fastdds/fastcdr/CdrSizeCalculator.hpp:1055-1061 | arrays inside arrays are flattened |
| `CdrSizeCalculator.SizeCalculator.CalculateEntriesSize` | include/booster_fastdds/fastcdr/CdrSizeCalculator.hpp:618-622 | key and value sizes alternate |
| `CdrSizeCalculator.SizeCalculator.CalculateMemberSerializedSize` | include/booster_fastdds/fastcdr/CdrSizeCalculator.hpp:1069-1131 | padding, header, payload and the NEXTINT/DHEADER join of a plain member; the mark is cleared |
| `CdrSizeCalculator.SizeCalculator.CalculateOptionalMemberSerializedSize` | include/booster_fastdds/fastcdr/CdrSizeCalculator.hpp:1142-1206 | the same for an optional member, with CORBA_CDR and DDS_CDR told apart from XCDRv1; the mark is left as it was set |
| `FastCodec.RoundTripExactly` | include/booster_fastdds/fastcdr/FastCdr.h:1276-1430 | a value is read back, up to the position where writing stopped, if and only if its vectors' lengths fit 32 bits |
| `FastCodec.StreamRoundTrip` | include/booster_fastdds/fastcdr/FastCdr.h:646-785 | any list of writes is read back by the same list of types |
| `FastCodec.AcceptsExactlyEncodings` | include/booster_fastdds/fastcdr/FastCdr.h:1276-1430 | the parser accepts exactly the bytes of values of the type with counts that fit, with that value and that end |
| `FastCodec.FastLayout` | include/booster_fastdds/fastcdr/FastCdr.h:940-958 | a scalar is its bytes on the host, a vector its count in the host's byte order and its elements, an array its elements |
| `FastCodec.BulkTypes` | include/booster_fastdds/fastcdr/FastCdr.h:1209-1219 | copied in one go are scalars and their arrays of any number of dimensions, nothing else |
| `FastCodec.FastCdr.Serialize` | include/booster_fastdds/fastcdr/FastCdr.h:646-785 | the bytes written so far grow by exactly the value's bytes; scalars, vectors and arrays of scalars that do not fit leave them as they were |
| `FastCodec.FastCdr.SerializeVector` | include/booster_fastdds/fastcdr/FastCdr.h:940-958 | count and elements, or back to the start from a failure at any depth, also into a replaced buffer |
| `FastCodec.FastCdr.SerializeArray` | include/booster_fastdds/fastcdr/FastCdr.h:1209-1219 | elements one after another; scalars in one go, all or nothing |
| `FastCodec.FastCdr.Append` | include/booster_fastdds/fastcdr/FastCdr.h:692-704 | copies when the room is there or can be made, never past the last position |
| `FastCodec.FastCdr.Resize` | include/booster_fastdds/fastcdr/FastBuffer.h:72-79 | both iterators are rebased into a longer buffer that holds the same bytes |
| `FastCodec.FastCdr.SetState` | include/booster_fastdds/fastcdr/FastBuffer.h:86-92 | only the index of the saved iterator counts |
| `FastCodec.FastCdr.Deserialize` | include/booster_fastdds/fastcdr/FastCdr.h:1595-1616 | the reference parser's answer and position; scalars, vectors and arrays of scalars go back to their start on an error at any depth |
| `FastCodec.FastCdr.DeserializeArray` | include/booster_fastdds/fastcdr/FastCdr.h:1868-1877 | element loop |
| `FastCodec.FastCdr.Take` | include/booster_fastdds/fastcdr/FastCdr.h:1286-1298 | reads only up to the last position, or nothing |
| `MemPool.BlocksAreOptimal` | include/booster_fastdds/tinyxml2.h:362-386 | over any run the number of blocks is the high-water mark divided by ITEMS_PER_BLOCK rounded up, and the high-water mark is the largest number of items ever live |
| `MemPool.PartitionTake` | include/booster_fastdds/tinyxml2.h:377-379 | taking the head of the free list gives an item that was not live and keeps the partition |
| `MemPool.PartitionPut` | include/booster_fastdds/tinyxml2.h:388-399 | a freed item was not in the free list, and the partition holds again |
| `MemPool.PartitionGrow` | include/booster_fastdds/tinyxml2.h:363-376 | a new block's items join the free list without overlap |
| `MemPool.CountedAlloc` | include/booster_fastdds/tinyxml2.h:380-386 | counters after an allocation; a block is added exactly when no item is free |
| `MemPool.PerBlock` | include/booster_fastdds/tinyxml2.h:425 | the most items of the given size that fit 4 KiB |
| `MemPool.MemPoolT.constructor` | include/booster_fastdds/tinyxml2.h:337 | an empty pool |
| `MemPool.MemPoolT.Alloc` | include/booster_fastdds/tinyxml2.h:362-386 | an item that was not live becomes live; the pool grows by one block exactly when the free list is empty; free list acyclic, partition and counters hold again |
| `MemPool.MemPoolT.NewBlock` | include/booster_fastdds/tinyxml2.h:363-374 | fresh, distinct items linked in order |
| `MemPool.MemPoolT.Free` | include/booster_fastdds/tinyxml2.h:388-399 | null is ignored; a live item becomes the head of the free list |
| `MemPool.MemPoolT.OptimalBlocks` | include/booster_fastdds/tinyxml2.h:362-386 | in every valid pool the blocks are `_maxAllocs` divided by the block size rounded up, and `_maxAllocs` is the largest number of items live at once since the last Clear |
| `MemPool.MemPoolT.Clear` | include/booster_fastdds/tinyxml2.h:342-353 | no blocks, no items, all counters zero |
| `MemPool.MemPoolT.SetTracked` | include/booster_fastdds/tinyxml2.h:406-408 | untracked = allocations - tracked |
| `GrowableArray.CopyingIsLinear` | include/booster_fastdds/tinyxml2.h:289-303 | over any run growth copies at most `_allocated` - INITIAL_SIZE elements, hence at most twice the largest size |
| `GrowableArray.CopiesCounted` | include/booster_fastdds/tinyxml2.h:289-303 | every change of capacity copies what is there, and nothing else copies |
| `GrowableArray.SwapRemovedTakesOne` | include/booster_fastdds/tinyxml2.h:268-273 | removal by swapping takes exactly one occurrence of the element |
| `GrowableArray.DynArray.EnsureCapacity` | include/booster_fastdds/tinyxml2.h:289-303 | contents kept, capacity doubled from what was asked, exactly when it is exceeded |
| `GrowableArray.DynArray.Push` | include/booster_fastdds/tinyxml2.h:212-217 | the contents gain one element at the end |
| `GrowableArray.DynArray.PushArr` | include/booster_fastdds/tinyxml2.h:219-226 | room at the end, the contents before it unchanged |
| `GrowableArray.DynArray.Pop` | include/booster_fastdds/tinyxml2.h:228-232 | the last element |
| `GrowableArray.DynArray.PopArr` | include/booster_fastdds/tinyxml2.h:234-237 | the last elements |
| `GrowableArray.DynArray.SwapRemove` | include/booster_fastdds/tinyxml2.h:268-273 | the last element takes the removed one's place |
| `GrowableArray.DynArray.Clear` | include/booster_fastdds/tinyxml2.h:208-210 | empty, with the memory kept |
| `TopicChannel.DeletedExactlyOnce` | include/booster/common/dds/dds_topic_channel.hpp:15-18 | over any run of set and close calls, failures included, every created entity has been deleted exactly once, by its creator, when the channel is gone |
| `TopicChannel.ListenerOutlivesReader` | include/booster/common/dds/dds_topic_channel.hpp:82-87 | at every step inside every call, the listener of each undeleted reader is still owned |
| `TopicChannel.FailedSetKeepsOld` | include/booster/common/dds/dds_topic_channel.hpp:53-57 | a set that fails leaves the old entity in place and undeleted |
| `TopicChannel.SetKeepsIdle` | include/booster/common/dds/dds_topic_channel.hpp:41-62 | a set that succeeds adds one entity behind the earlier ones and holds it: created by the owner asked for, a reader with a listener that no earlier reader had, a writer with none; otherwise nothing changes |
| `TopicChannel.EveryReaderHeard` | include/booster/common/dds/dds_topic_channel.hpp:50-60 | over any run of set and close calls every reader ever created has a listener, no two the same, and the one held is that of the reader held |
| `TopicChannel.ReplacedWithoutGap` | include/booster/common/dds/dds_topic_channel.hpp:53-61 | at every step of a set on a channel that holds something, some entity is not deleted: the new one exists before the old one goes |
| `TopicChannel.CloseKeepsIdle` | include/booster/common/dds/dds_topic_channel.hpp:72-87 | a close deletes what is held, once, and leaves no entity, owner or listener held |
| `TopicChannel.DdsTopicChannel.SetReader` | include/booster/common/dds/dds_topic_channel.hpp:41-62 | creation, closing of the old reader, then listener, owner and reader, as the model's set; the fields are the new reader, its subscriber and its listener, or unchanged |
| `TopicChannel.DdsTopicChannel.SetWriter` | include/booster/common/dds/dds_topic_channel.hpp:24-39 | creation, closing of the old writer, then owner and writer, as the model's set; the fields are the new writer and its publisher, or unchanged |
| `TopicChannel.DdsTopicChannel.CloseReader` | include/booster/common/dds/dds_topic_channel.hpp:80-87 | delete, reset reader, owner, listener, in this order |
| `TopicChannel.DdsTopicChannel.CloseWriter` | include/booster/common/dds/dds_topic_channel.hpp:72-78 | delete, reset writer, owner |
| `TopicChannel.DdsTopicChannel.Destructor` | include/booster/common/dds/dds_topic_channel.hpp:15-18 | closes both halves |

## Left out

- CdrVectorsOfArrays.RoundTripV2: presupposes, for types that fail, that the failing value stays below the 32-bit length that any round trip presupposes; `SolidFails` itself has no such bound.
- CdrRoundTrip.RoundTrip: excludes, in XCDRv2, types with a vector of arrays of non-primitives, and values that are not readable; `CdrLimits.RoundTripExactly` and `CdrVectorsOfArrays.RoundTripV2` prove both exclusions necessary.
- CdrCodec.Cdr.Deserialize: where a vector, map or array with a DHEADER fails, the position is left open, since the source does not restore it.
- ReaderListener.DdsReaderListener.ExecutePendingCallbacks: is stated without interference; interleavings are covered by the step system, to whose steps each locked block is tied.
- ReaderListener.DdsCallbackExecutor.Run: is stated for one worker alone after a stop; the interleavings of several workers are covered by the executor's step system.
- CdrExact.AcceptsExactlyEncodings: is stated for types without DHEADERs and maps, and buffers in which no 32-bit count can wrap around; `CdrExact.MapHeldExactly` and `CdrAccepted` say what else is accepted for the others.
- FastCodec.FastCdr.SerializeArray: where an array of vectors fails, the elements before it stay written, as in the source.
- CDR strings, wide strings, bool sequences, bitsets, externals, enumerations with a fixed width, member headers, encapsulation and raw sequences: declared without body, or wrappers of what is modelled.
- The encoder's own `serialized_member_size_`, which only the member-header writers read.
- std::map reordering the keys of a foreign stream: tables keep the order of the stream.
- Decoding a map into a target that is not empty: only one of the branches clears it (`Cdr.h:1974`).
- Wrap-around of `size_t` and of the 64-bit metrics counters.
- `current_queue_size`, the latency and duration maxima, clocks, thread priorities and affinities, and log output.
- `GetExecutorMetrics` and changing the executor options in mid-run.
- The two shared pointers with empty deleters that `GetReader` and `GetWriter` hand out.
- `FastBuffer::reserve` and its moves, and FastCdr's `jump` and strings.
- `MemPoolT::Trace`, and the debug fill of freed memory.
- The XML parser, printer and DOM, the IDL message headers, audio and AI interfaces, and the example programs.
