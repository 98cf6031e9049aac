# Fiona: a verified model of the runtime's ownership and ordering protocols

Fiona runs coroutines on top of io_uring. Behind its I/O calls are four interlocking
protocols that decide who owns what and what happens in which order. This project models
them in Dafny and proves what they keep over every interleaving of completions and
coroutine steps.

The kernel is an abstract peer. It consumes submissions in order, posts completions when
it likes, takes buffers from a provided-buffer ring oldest first, and decides when a
multishot operation ends.

| file | what it models |
|---|---|
| `RecvBufferSequence.dfy`, `BufferCopy.dfy` | the intrusive buffer list on the heap, and copying out of it |
| `KernelRing.dfy` | the shared ring: 16-bit wrapping counters, power-of-two mask, staged adds |
| `RecvModel.dfy`, `RecvFrame.dfy` | `buf_ring`, `recv_frame` and `recv_awaitable`: functions on values, and classes proved to compute them in place |
| `RecvPipeline.dfy`, `RecvSafety.dfy` | the system of any number of streams and rings, its steps, its invariant, and a proof for every step |
| `RecvTheorems.dfy`, `RecvOutcomes.dfy`, `RecvConservation.dfy`, `RecvEarlyBreak.dfy` | partition of buffer ids, byte-stream refinement, wakeups, assertions; which error each reader gets; replenishment |
| `RefLedger.dfy` | the reference count of a stream and the last-handle test of `~stream` |
| `TimerMachine.dfy`, `IdleWindow.dfy` | arming, adjusting and cancelling the timer; when an idle stream is cancelled |
| `OneShotFrame.dfy` | who is woken by the cancel, close and shutdown frames |
| `FileSlots.dfy`, `SlotTable.dfy` | the fixed-file slot allocator, and what it says about the kernel's file table |
| `ShutdownDrain.dfy` | the drain at shutdown compared with the run loop |
| `TaskMap.dfy` | counts and recursive destruction of coroutine frames, `clear` |
| `SpawnWakeup.dfy` | a child task and its awaiters |
| `RunLoop.dfy` | `io_context::run` |
| `TlsRepack.dfy` | repacking decrypted records into the received buffers |
| `SubmissionQueue.dfy` | reservation and link chains in the submission queue |

## How to read it

Code that changes state in place is a class whose methods are proved equal to a function
on the abstract state (`State() == F(old(State()))`). What the source promises is then
proved about those functions, for single steps and, by induction, for whole runs.

- The receive pipeline keeps a queue of posted completions per stream. A global
  completion queue is one interleaving of these queues, so every real run is covered.
- Allocation addresses come from a counter. A memory map and an owner map make separation
  explicit: a buffer with two owners would be overwritten while somebody reads it.
- The slot of a counter is defined by repeated subtraction. `MaskIsSlot` proves that this
  is the bit mask of the source, and `WrapIsModulo` that the counters are 16-bit ones.
- A run is a sequence of states joined by enabled events. Where a step function needs the
  invariant to be defined, a run constrains a step only from states that have it, and the
  run lemmas prove that there are no others.
- Assumptions about the environment: one reader per stream; positive buffer sizes; a ring
  size that is a power of two up to 32768; recycled buffers belong to the user and have a
  positive capacity; a completion with a result of zero or less ends its operation; a batch has at most
  `cq_entries` completions; each raw descriptor is wrapped once; the TLS channel copies its input before
  it calls back; an awaitable outlives the coroutines that its task may still resume on it.

## Properties that fail, and when exactly

- **A timer cancellation can be lost.** A removal that finds no timeout does nothing, so a tick without
  `F_MORE` makes the timer be armed again with `cancelled_` set, whether it waits when the removal is
  queued (`CancelCanBeLost`) or comes before the removal is submitted (`CancelLostBeforeSubmission`).
  `CancelOwedIff` proves for every run that a cancelled timer is owed its end if and only if its last
  removal found no such tick waiting and none has come since; `CancelledTimerEndsIff` proves that the
  timer then ends, and otherwise is armed again.
- **The last-handle test of `~stream` can miss the last handle** when operations without a
  busy check overlap. `UseCountVersusHandles` proves that it counts handles exactly if and
  only if no frame has an operation its flags do not show; `OverlapHidesLastHandle` gives
  the run; `LastHandleTestExact` proves it right in all runs without overlap.
- **A coroutine that awaits a task can be suspended forever**, for two reasons: the count does not show
  that the child has ended (`SecondAwaitableLosesWakeup`), or a later await overwrites the one stored
  continuation, be it of a copy (`OvertakenLosesWakeup`) or of the same awaitable
  (`SharedAwaitLosesWakeup`). `SuspendedIffWakeupLost` proves for every run and every await that its
  coroutine is still suspended after the child has left the map if and only if one of these two happened
  to it; `NoLostWakeup` covers one awaitable per task and one awaiter at a time.
- **A coroutine that awaits a cancel, close or shutdown can be suspended forever.** `ResumedOnceIff` and
  `AllResumedIff` prove that it is resumed exactly once if and only if the next thing that happens to the
  frame after the await is a completion: a second await overwrites it (`SecondAwaitLosesFirst`), and so
  does the reset by a coroutine that a previous completion had handed out (`ResetLosesNext`).
- **A stream without handles can live on.** Handles also die in awaitables and assignments, where no
  last-handle test is made. `DeletableIff` proves that the object can then still be deleted if and only
  if its timer has ended or is marked as cancelled; `AbandonedStreamLives` gives a run.
- **A free slot can hold an open file.** A close names the slot the stream had when it was submitted, but
  its completion releases the slot the stream has by then. `CleanIffNoLateCompletion` proves for every run
  that free slots are empty in the kernel all the time if and only if no completion met a slot that was
  filled after it was last emptied; `SecondCloseFreesNewSlot` gives a run and `OrderlyRunIsClean` covers
  streams that are closed once per connection.
- **A batch of completions can be larger than the arrays of `run`**, because the kernel rounds the size of
  the queue up. `LargestBatchFitsIff` proves that the largest batch fits if and only if `cq_entries` is a
  power of two.
- **File slots can be lost** in three ways: registering a listening socket fails after its
  slot was taken (`RegistrationLosesSlot` gives the run), an acceptor is destroyed with an accepted
  connection nobody resumed for, a raw descriptor is dropped. `OneOwnerPerSlot` proves that the
  owners cover all slots if and only if none of these happened.
- **Replenishment can stop early** once buffers were recycled or a stream changed its group
  with data pending. `RestoredIffIdsFree` gives the exact condition, `EarlyBreakTaken` a run, and
  `SteadyDeliveryRestores` covers all runs without either.
- **The shutdown drain does not always release what the run loop would.** Frame by frame and for any
  queue, `DrainMatchesRunPerFrame` proves that it does if and only if exactly one operation ends of
  every frame that has completions. It releases too much for a multishot operation that is still
  going on (`DrainReleasesLiveMultishot`) and too little for overlapping operations that both ended
  (`DrainKeepsOverlapping`). For whole objects whose frames have at most one ended operation each,
  `DrainMatchesRun` proves that it does if and only if no frame has completions without its last one.
- **Frames nobody holds can survive `clear`.** `UnheldSurvivorIffCycle` and `TaskMap.Clear` prove that
  one does if and only if ownership has a cycle of live frames none of which is held from outside;
  `CycleSurvives` gives a run. With acyclic ownership `SurvivorsAreHeld` says exactly which frames survive.
- **An operation needs room for all its entries at once.** `PerformSucceedsIff` proves that it works if
  and only if the submission queue has that many entries: three for a fresh connection and for closing
  with a live timer.

## Model

| member | source | states |
|---|---|---|
| RecvBufferSequences.RecvBufferSequence.PushBack | include/fiona/buffer.hpp:471-491 | appends one detached buffer; links stay mutually inverse, the tail's next is this object's own sentry, which is unchanged |
| RecvBufferSequences.RecvBufferSequence.PopFront | include/fiona/buffer.hpp:493-522 | removes and returns the first buffer, detached; the rest keeps its order |
| RecvBufferSequences.RecvBufferSequence.Concat | include/fiona/buffer.hpp:524-550 | the argument's buffers follow this list's; the argument is empty and reusable |
| RecvBufferSequences.RecvBufferSequence.LinkBehind | include/fiona/buffer.hpp:536-549 | the pointer surgery of `concat` for two non-empty lists |
| RecvBufferSequences.RecvBufferSequence.Move | include/fiona/buffer.hpp:426-442 | the new object owns the list behind its own sentry; the old one is empty and reusable |
| RecvBufferSequences.RecvBufferSequence.MoveAssign | include/fiona/buffer.hpp:444-467 | frees the buffers held before, then takes over the other list; self-assignment changes nothing |
| RecvBufferSequences.RecvBufferSequence.FreeList | include/fiona/buffer.hpp:398-418 | frees every buffer once, in order, and leaves an empty list |
| BufferCopying.BytesConcat | include/fiona/buffer.hpp:524-550 | concatenating sequences concatenates their readable bytes, from any position |
| BufferCopying.BufferSize | src/buffer.cpp:28-36 | walking the links returns the number of readable bytes of all buffers |
| BufferCopying.CopyOne | src/buffer.cpp:45-61 | one buffer: what fits is copied behind the bytes before, and the loop is left exactly when the destination is full or all is copied |
| BufferCopying.BufferCopy | src/buffer.cpp:38-64 | copies the longest prefix of the bytes that fits, and touches nothing behind it |
| BufferCopying.ToBytes | src/buffer.cpp:85-92 | returns exactly the bytes of all buffers in order |
| KernelRings.WrapIsModulo | src/common.cpp:67-75 | the wrap of the 16-bit counters is the remainder modulo 65536, also for negative numbers |
| KernelRings.MaskIsSlot | src/common.cpp:67-75 | for a power-of-two size the bit mask of a counter is the model's slot |
| KernelRings.SlotsDistinct | src/tcp.cpp:1067-1076 | entries less than a ring apart are in different slots |
| KernelRings.WrapKeepsSlot | src/tcp.cpp:1067-1076 | a counter keeps its slot when it wraps |
| KernelRings.AddStages | src/tcp.cpp:1067-1071 | adding behind the tail changes neither the live window nor what was staged before |
| KernelRings.AdvanceCommits | src/tcp.cpp:1075-1077 | one advance appends the staged entries to the live window in order |
| KernelRings.ConsumeTakesOldest | src/common.cpp:99-103 | the kernel takes the oldest provided entry, and only that |
| KernelRings.BatchEqualsSinglePushes | src/common.cpp:67-75 | adds at offsets 0, 1, ... and one advance leave the same memory and tail as single pushes |
| KernelRings.KernelRing.Add | src/common.cpp:71-73 | writes one slot of the shared array, behind the tail |
| KernelRings.KernelRing.Advance | src/common.cpp:75 | publishes staged entries by moving the wrapping tail |
| KernelRings.KernelRing.Push | src/common.cpp:99-103 | add and advance by one: the entry is last in the window, no live entry is overwritten |
| RecvFrames.BufRing.constructor | src/common.cpp:56-76 | every slot filled, every id provided once in order, the free stack empty |
| RecvFrames.BufRing.Take | src/detail/stream_impl.hpp:414-423 | a completion empties the slot and pushes its id |
| RecvFrames.BufRing.RecycleBuffer | src/common.cpp:87-105 | with a free id the youngest one leaves the stack, its slot holds the buffer and the kernel window ends with it; without a free id nothing changes |
| RecvFrames.BufRing.Restock | src/tcp.cpp:1061-1071 | one round of the loop: pop an id, allocate into its empty slot, stage it |
| RecvFrames.BufRing.Replenish | src/tcp.cpp:1048-1077 | the loop with its early break and single advance restores what `Replenished` says |
| RecvFrames.RecvFrame.AwaitProcessCqe | src/detail/stream_impl.hpp:383-431 | data is appended with its slot and length, an end of file as an empty buffer, and an error is stored: 110 for -125 without a cancellation by the user, otherwise the negated result |
| RecvFrames.RecvFrame.Handle | src/detail/stream_impl.hpp:261-265 | the stored coroutine is handed out once |
| RecvFrames.RecvFrame.AwaitSuspend | src/tcp.cpp:1004-1029 | whether the reader suspends, continues or gets an exception, and the new frame |
| RecvFrames.RecvFrame.AwaitResume | src/tcp.cpp:1031-1083 | an error, or all pending buffers with the ring replenished |
| RecvModel.Replenished | src/tcp.cpp:1048-1073 | replenishing stops at the leading data buffers or at the free ids, whichever are fewer |
| RecvModel.RefillProvides | src/tcp.cpp:1058-1076 | a refill takes the ids from the top of the stack down and appends one fresh buffer of the ring's size per id to the kernel window |
| RecvSafety.ProvideRunIsRefill | src/tcp.cpp:1048-1077 | the loop of the whole system does to a ring what the loop of the object does |
| RecvSafety.AwaitResumeRefills | src/tcp.cpp:1048-1077 | a delivery refills the ring of its group exactly as the object's `Replenish` |
| RecvSafety.RecycleGives | src/common.cpp:94-104 | recycling into ring g with a free id: last in the window under the youngest id, in that id's slot, stack one shorter; without one the ring is unchanged and the buffer is freed |
| RecvSafety.RecycleToIsRecycle | src/common.cpp:87-105 | recycling in the whole system does to a ring what the object's `RecycleBuffer` does |
| RecvSafety.FillKeepsInv | src/detail/stream_impl.hpp:408-423 | the kernel writing into a provided buffer overwrites nothing anybody still reads |
| RecvSafety.CompleteDataKeepsInv | src/detail/stream_impl.hpp:408-430 | processing a data completion of one of many streams keeps partition, ownership and refinement |
| RecvSafety.TakeEndKeepsInv | src/detail/stream_impl.hpp:387-407 | so does an end of file or an error |
| RecvSafety.AwaitRecvKeepsInv | src/tcp.cpp:998-1029 | so does awaiting, whether or not it suspends |
| RecvSafety.ResumeKeepsInv | src/tcp.cpp:1031-1083 | so does resuming a reader, delivering and replenishing |
| RecvSafety.RecycleKeepsInv | src/common.cpp:87-105 | so does recycling a buffer of the user into any ring |
| RecvSafety.RegisterKeepsInv | src/common.cpp:56-76 | so does registering another ring |
| RecvSafety.ChangeGroupKeepsInv | src/tcp.cpp:702-721 | so does changing the buffer group of an idle stream |
| RecvSafety.DestroyKeepsInv | src/tcp.cpp:91-114 | so does destroying a stream with no operation in flight, together with its pending buffers |
| RecvSafety.StepKeepsInv | src/tcp.cpp:998-1083 | every step keeps the whole invariant |
| RecvTheorems.RunKeepsInv | src/tcp.cpp:998-1083 | the invariant holds in every state of every run |
| RecvTheorems.EveryIdInOnePlace | src/detail/stream_impl.hpp:408-423 | in every run each id is in exactly one of kernel ring, posted completion, free stack; its slot is filled exactly when it is off the stack |
| RecvTheorems.NothingOverflows | src/common.cpp:87-105 | free stack and kernel ring together never exceed the ring, and leave room for a completion being processed |
| RecvTheorems.ByteStream | src/tcp.cpp:1079-1082 | delivered, then pending, then posted bytes are the bytes received, in order, for every schedule |
| RecvTheorems.ErrorsComeLast | src/detail/stream_impl.hpp:390-407 | end of file is only last among pending buffers; an error is reported after all data |
| RecvOutcomes.ErrorsReported | src/detail/stream_impl.hpp:387-407 | in every run the errors reported, and the pending one, are those of the failed completions in order: 110 if and only if the result was -125 and the stream had not been cancelled since its creation, otherwise the negated result; the same for ends of file |
| RecvOutcomes.OutcomesAreOwed | src/detail/stream_impl.hpp:387-431 | in every run errors, ends of file and the mark of a cancellation follow from the events alone |
| RecvOutcomes.AwaitGives | src/tcp.cpp:998-1083 | what an await gives: data, else the stored error once, else suspension with an operation of the present group in flight, else, without a group, the exception |
| RecvOutcomes.ResumeGives | src/tcp.cpp:1031-1082 | what a resumed coroutine gets: all pending buffers, else the error, which is cleared |
| RecvOutcomes.SetGroupGives | src/tcp.cpp:702-721 | changes the group and nothing else, unless a receive is outstanding or the group is unknown; then it changes nothing |
| RecvTheorems.WakeupProtocol | src/tcp.cpp:1004-1029 | an error excludes an outstanding operation; a stored handle is the suspended reader's, who is owed a completion; resumptions match suspensions; whoever is resumed finds data or an error |
| RecvTheorems.CollectedOnce | src/io_context.cpp:258-286 | several completions in one batch collect a suspended reader once |
| RecvTheorems.NoAssertionFails | src/tcp.cpp:1036-1081 | no assertion of the pipeline fails: capacities, stack bounds, error states, data present on resumption |
| RecvTheorems.RefillAssertions | src/tcp.cpp:1058-1066 | every slot replenished by one call was empty before |
| RecvConservation.RestoredIffIdsFree | src/tcp.cpp:1048-1077 | a delivery restores as many kernel buffers as it delivers if and only if the group has that many free ids; otherwise it restores what there are |
| RecvEarlyBreak.EarlyBreakTaken | src/tcp.cpp:1054-1056 | a run in which a buffer is delivered and none restored |
| RecvConservation.SteadyRunConserves | src/tcp.cpp:1048-1077 | without recycling and group changes under way, free ids equal the undelivered data buffers of the group plus those freed with destroyed streams, in every run |
| RecvConservation.SteadyDeliveryRestores | src/tcp.cpp:1048-1077 | so the early break is never taken and every delivery, at once or on resumption, restores exactly what it delivers |
| RefLedger.StepKeepsInv | src/detail/stream_impl.hpp:425-457 | every submission, completion and handle operation keeps count == handles + operations in flight |
| RefLedger.RunKeepsInv | src/io_context.cpp:260-282 | the ledger holds in every run; a multishot completion that goes on nets to zero |
| RefLedger.OperationsAreEvents | src/detail/stream_impl.hpp:520-532 | in every run and for each frame the operations in flight are those its events started, the cancellation of an idle tick included, minus those whose last completion was processed |
| RefLedger.StepFlags | src/detail/stream_impl.hpp:48-68 | how each event changes `initiated_` and `done_`: a reset frame is ready again, a multishot receive that goes on stays initiated |
| RefLedger.DeletedOnlyWhenUnowed | src/detail/awaitable_base.hpp:31-43 | in every run the object is deleted at most once, with no handle and no completion owed, and nothing follows |
| RefLedger.UseCountVersusHandles | src/tcp.cpp:598-620 | `use_count` minus active frames is at least the number of handles; equal if and only if the flags show every operation |
| RefLedger.StepKeepsTidy | src/detail/stream_impl.hpp:232-236 | without overlap, flags and operations keep agreeing |
| RefLedger.LastHandleTestExact | src/tcp.cpp:605-619 | in every run without overlapping operations the test is true exactly for the last handle |
| RefLedger.OverlapHidesLastHandle | src/tcp.cpp:829-852 | two overlapping cancels make the test miss the last handle |
| RefLedger.DeletableIff | include/fiona/tcp.hpp:131-141 | without handles the object can still be deleted if and only if its timer has ended or is marked as cancelled |
| RefLedger.AbandonedStreamLives | src/detail/stream_impl.hpp:336-348 | the run in which a dropped handle leaves a stream alive for good |
| OneShotFrames.LostIffNotCompletedNext | src/tcp.cpp:829-852 | in every run an await is lost if and only if the next event of its frame is no completion |
| OneShotFrames.ResumedOnceIff | src/tcp.cpp:829-870 | when all is over a coroutine was resumed once if a completion came next, and otherwise never |
| OneShotFrames.AllResumedIff | src/tcp.cpp:771-818 | all were resumed exactly once if and only if every await was followed by a completion |
| OneShotFrames.FlagsAreEvents | src/detail/stream_impl.hpp:40-68 | in every run `initiated_`, `done_` and the operations in flight follow from the events alone |
| OneShotFrames.SecondAwaitLosesFirst | src/tcp.cpp:847-852 | two overlapping awaits lose the first coroutine |
| OneShotFrames.ResetLosesNext | src/tcp.cpp:854-860 | an await between a completion and the resumption it causes is erased by the reset |
| OneShotFrames.OneShotFrame.AwaitSuspend | src/tcp.cpp:829-852 | starts an operation and overwrites the stored coroutine |
| OneShotFrames.OneShotFrame.ProcessAndHandle | src/detail/stream_impl.hpp:57-68 | hands out the stored coroutine once |
| OneShotFrames.OneShotFrame.AwaitResume | src/detail/stream_impl.hpp:48-55 | the reset forgets whatever coroutine is stored |
| RefLedger.StreamImpl.HandleCount | src/tcp.cpp:605-612 | the sum over all frames is the specified use count, with the bounds above |
| RefLedger.StreamImpl.DestroyHandle | src/tcp.cpp:598-620 | releases one reference, marks the timer cancelled exactly when the test sees the last handle, and the test is right when the flags are exact |
| RefLedger.StreamImpl.IntrusivePtrRelease | src/detail/awaitable_base.hpp:37-43 | deletes exactly at zero |
| RefLedger.StreamImpl.ProcessRecv | src/detail/stream_impl.hpp:425-430 | the reference is re-added exactly when the operation goes on |
| RefLedger.StreamImpl.ProcessTimeout | src/detail/stream_impl.hpp:462-546 | which references and flags a tick, an adjustment, an end and an idle cancellation change |
| TimerMachine.StepKeepsInv | src/detail/stream_impl.hpp:462-546 | every step keeps: one operation outstanding exactly while initiated, an outdated period is about to be removed |
| TimerMachine.InitiatedIffOneOutstanding | src/tcp.cpp:622-678 | in every run `initiated_` holds exactly while one timeout is outstanding; a kernel timeout that no queued removal is about to replace has the period asked for last |
| TimerMachine.PeriodIsLast | src/tcp.cpp:622-625 | in every run the stored period is the argument of the latest `timeout()` call, else the initial one |
| TimerMachine.RunsWithLastPeriod | src/tcp.cpp:622-643 | in every run a live timer, once all is submitted and processed, runs with that period |
| TimerMachine.OwedOnceQueued | src/tcp.cpp:647-664 | queueing a cancellation makes its ECANCELED owed if and only if no tick without `F_MORE` waits |
| TimerMachine.CancelAlwaysOwed | src/tcp.cpp:647-664 | with `F_MORE` on every tick a cancelled timer is owed its end in every state of every run |
| TimerMachine.OwedAfterStep | src/detail/stream_impl.hpp:462-546 | the step law: what every step does to the end owed to a cancelled timer, both directions |
| TimerMachine.CancelOwedIff | src/tcp.cpp:797-799 | in every run a cancelled timer is owed its end if and only if its last removal met no tick without `F_MORE`, before or after it was queued |
| TimerMachine.OwedUnlessFinalTick | src/detail/stream_impl.hpp:534-543 | a step from a cancelled, owed state that does not end the timer leaves its end owed if and only if it is no tick without `F_MORE` |
| TimerMachine.StaysOwedIff | src/tcp.cpp:647-664 | from a cancelled, owed state the end stays owed until it comes if and only if no tick without `F_MORE` comes |
| TimerMachine.CancelledTimerEndsIff | src/detail/stream_impl.hpp:467-489 | in every run the next pass ends a cancelled timer if and only if its last removal is intact; otherwise it is armed again with the period asked for last |
| TimerMachine.CancelLostBeforeSubmission | src/tcp.cpp:797-805 | the run in which the tick comes between queueing and submission |
| TimerMachine.PostedCancelEnds | src/detail/stream_impl.hpp:467-472 | the posted ECANCELED survives every step until it is processed, then both flags are clear and nothing is outstanding |
| TimerMachine.EndedStaysEnded | src/detail/stream_impl.hpp:467-472 | an ended timer has ended for good, whatever is called later |
| TimerMachine.Settles | src/detail/stream_impl.hpp:474-489 | from every state, submitting and processing either ends the timer or runs it with the latest period, according to whether the end was owed |
| TimerMachine.CancelTakesEffect | src/tcp.cpp:669-678 | a cancellation submitted at once ends the timer if and only if no tick without `F_MORE` waits |
| TimerMachine.CancelCanBeLost | src/detail/stream_impl.hpp:534-543 | the run in which the cancellation is lost |
| TimerMachine.TimeoutFrame.SetPeriod | src/tcp.cpp:622-643 | stores the new period and queues one removal behind the queue; nothing else changes |
| TimerMachine.TimeoutFrame.QueueTimerCancel | src/tcp.cpp:647-664 | an ended timer is left alone; otherwise it is marked and one removal is queued; the period stays |
| TimerMachine.TimeoutFrame.AwaitProcessCqe | src/detail/stream_impl.hpp:462-546 | the first completion decides: closing clears both flags, adjusting and a last tick arm again with the stored period, a tick with `F_MORE` changes nothing |
| IdleWindows.TimespecEncodesPeriod | include/fiona/detail/time.hpp:15-25 | the timespec is the only normalised one whose period is the duration rounded down to nanoseconds, negative durations included |
| IdleWindows.ShouldCancel | src/detail/stream_impl.hpp:498-518 | cancels if and only if a receive or a send in flight is a period old |
| IdleWindows.CancelNeverEarly | src/detail/stream_impl.hpp:504-518 | a tick cancels if and only if an operation is in flight and nothing has happened to it for a full period |
| IdleWindows.RecurringActivityIsSafe | src/detail/stream_impl.hpp:504-518 | activity within the period prevents cancellation |
| IdleWindows.CancelWindow | src/detail/stream_impl.hpp:498-532 | with exact ticks an idle operation is cancelled at or after one period, strictly before two, and by no earlier tick |
| FileSlots.ReleaseIsSafe | include/fiona/executor.hpp:196-209 | a released slot is in range and not free already, even if objects are closed repeatedly |
| FileSlots.StepKeepsInv | include/fiona/executor.hpp:178-209 | every step keeps: each slot has one owner or is lost |
| FileSlots.RunKeepsInv | include/fiona/executor.hpp:178-209 | in every run of accepts, connects, closes and destructions |
| FileSlots.LostIffSomeStepLoses | src/tcp.cpp:205-215 | slots are lost by exactly three kinds of step |
| FileSlots.OneOwnerPerSlot | src/tcp.cpp:391-437 | no slot has two owners; the owners cover all slots if and only if no step lost one |
| FileSlots.TakersFlow | src/tcp.cpp:391-420 | which object a slot that leaves the free set goes to: acceptor, accept operation or stream |
| FileSlots.MoversFlow | src/tcp.cpp:422-463 | the slot of an accepted connection goes to the user if it was asked for raw, and otherwise to a new stream; from the user it can go to a stream |
| FileSlots.ReleasersFlow | src/tcp.cpp:306-317 | a failed accept, a completed close and a destroyed acceptor free exactly the slot they hold |
| FileSlots.RegistrationLosesSlot | src/tcp.cpp:205-216 | the shortest run that loses a slot: registration fails after the slot was taken |
| FileSlots.AllSlotsReturn | src/tcp.cpp:289-302 | when nothing holds a slot any more, all are free if and only if no step lost one |
| SlotTable.CleanAfterStep | src/detail/stream_impl.hpp:355-367 | a step frees an open slot if and only if it completes a close while the stream's present slot is open |
| SlotTable.CleanIffNoLateCompletion | src/tcp.cpp:771-806 | in every run free slots are empty in the kernel all the time if and only if no completion of a close came late |
| SlotTable.OrderlyRunIsClean | src/tcp.cpp:771-806 | so they are when a stream is closed only while it has a slot and no other close is under way |
| SlotTable.SecondCloseFreesNewSlot | src/detail/stream_impl.hpp:361-365 | the run in which a second completion frees the slot of a new connection |
| FileSlots.Runtime.constructor | src/io_context.cpp:338-341 | all slots are free |
| FileSlots.Runtime.GetAvailableFd | include/fiona/executor.hpp:178-194 | takes a free slot, or returns -1 |
| FileSlots.Runtime.ReleaseFd | include/fiona/executor.hpp:196-209 | frees the slot; a negative number is ignored |
| FileSlots.Runtime.SuspendAccept | src/tcp.cpp:391-420 | reserves a slot for the connection; a busy acceptor and an empty table change nothing |
| FileSlots.Runtime.ProcessAccept | src/tcp.cpp:306-317 | a failed accept gives its slot back |
| FileSlots.Runtime.ResumeAccept | src/tcp.cpp:422-463 | the slot leaves the accept operation, which is usable again, and is appended to the raw descriptors or to the streams, as asked |
| FileSlots.Runtime.ProcessAcceptorClose | src/tcp.cpp:510-521 | gives the slot back once |
| FileSlots.Runtime.SuspendConnect | src/tcp.cpp:1213-1224 | takes a slot only if there is none yet; without one ENFILE |
| FileSlots.Runtime.ProcessStreamClose | src/detail/stream_impl.hpp:355-367 | gives the slot back once |
| ShutdownDrain.RunReleasesEndings | src/io_context.cpp:260-282 | the run loop releases one reference per ended operation, however many completions it had |
| ShutdownDrain.Drain | src/io_context.cpp:140-172 | releases one reference per distinct `user_data`, whatever the queue holds |
| ShutdownDrain.DrainMatchesRunPerFrame | src/io_context.cpp:148-172 | for every queue and frame the drain releases what the run loop releases if and only if exactly one operation ends, should there be completions; too much if none ends, too little if several do |
| ShutdownDrain.DrainVersusRun | src/io_context.cpp:148-172 | for a whole object the counts differ by its frames with completions minus its ended operations |
| ShutdownDrain.DrainMatchesRun | src/io_context.cpp:148-172 | where at most one operation ends per frame, the counts agree if and only if every frame with completions has its last one among them |
| ShutdownDrain.DrainKeepsOverlapping | src/io_context.cpp:156-170 | two overlapping operations that both ended keep a reference |
| ShutdownDrain.DrainReleasesLiveMultishot | src/io_context.cpp:156-170 | the case where it does not |
| ShutdownDrain.DrainLeavesHandles | src/io_context.cpp:148-172 | never goes below the handles; ends with exactly the handles if and only if each frame with completions has one operation and the others none |
| ShutdownDrain.ReleasedWhileAlive | src/io_context.cpp:170 | every object is alive when the drain releases it |
| TaskMaps.WorkIsAlive | include/fiona/executor.hpp:249-254 | a handle about to be released refers to a live frame |
| TaskMaps.SettleKeepsInv | include/fiona/executor.hpp:249-254 | recursive release terminates with every count right and revives nothing |
| TaskMaps.BeginKeepsInv | include/fiona/executor.hpp:243-290 | spawning, copying, moving and dropping handles keep every count |
| TaskMaps.CountIsHandles | include/fiona/executor.hpp:243-290 | in every run count == handles + (1 if in the map); a frame in the map is alive; destroyed at most once, exactly at zero |
| TaskMaps.HandlesAfterStep | include/fiona/executor.hpp:243-290 | what each event does to the handles of a frame, to those inside it and to the map |
| TaskMaps.InMapIffNotErased | include/fiona/detail/common.hpp:241-260 | in every run the map holds exactly the frames that were spawned and not erased since |
| TaskMaps.SurvivorsAreHeld | include/fiona/detail/common.hpp:262-273 | with acyclic ownership, after `clear` exactly the frames held from outside survive, whatever the order |
| TaskMaps.UnheldSurvivorIffCycle | include/fiona/detail/common.hpp:262-273 | with an empty map a live frame is not held from outside if and only if ownership has an unheld cycle of live frames |
| TaskMaps.SettleKeepsCycle | include/fiona/executor.hpp:249-254 | no release ever destroys a frame of a cycle of live frames |
| TaskMaps.CycleSurvives | include/fiona/detail/common.hpp:262-273 | the run in which a frame that owns itself outlives the map |
| TaskMaps.TaskMap.SpawnTask | include/fiona/executor.hpp:586-594 | a spawned frame has count two and is in the map |
| TaskMaps.TaskMap.Release | include/fiona/executor.hpp:249-254 | the recursive destructor computes the specified settlement |
| TaskMaps.TaskMap.DestroyHandles | include/fiona/executor.hpp:249-254 | every handle of a destroyed frame is released, with all destructions that follow; the map and the handles outside stay as they were |
| TaskMaps.TaskMap.EraseTask | include/fiona/detail/common.hpp:247-260 | releases the map's handle with all that follows, then erases the entry |
| TaskMaps.TaskMap.Clear | include/fiona/detail/common.hpp:262-273 | terminates with an empty map and right counts; a frame nobody holds is left if and only if there was an unheld cycle before; with acyclic ownership exactly the held frames are left |
| SpawnWakeup.StepKeepsInv | include/fiona/executor.hpp:412-479 | every step keeps count == live awaitables + (1 if in the map) and the continuation protocol |
| SpawnWakeup.SuspendIsExact | include/fiona/executor.hpp:557-566 | `await_suspend` tells correctly whether the child has ended if and only if the child is in the map or no second awaitable is alive |
| SpawnWakeup.NoDuplicateWakeup | include/fiona/executor.hpp:424-438 | in every run, copied and shared awaitables included, no coroutine is resumed twice or without having been suspended, and it gets the child's outcome |
| SpawnWakeup.OutcomeIsEnding | include/fiona/executor.hpp:468-502 | in every run the outcome is a value if and only if the child returned, and an error if and only if it threw while an awaitable was alive |
| SpawnWakeup.AwaitableAfterStep | include/fiona/executor.hpp:524-574 | an awaitable is marked once a coroutine has gone on behind an await of it; a copy inherits the mark; destroying it records an error nobody was given |
| SpawnWakeup.FateOfAwait | include/fiona/executor.hpp:424-438 | in every run the child resumes an await, once, if and only if it was made while the child was in the map and not overtaken by another |
| SpawnWakeup.SuspendedIffWakeupLost | include/fiona/executor.hpp:551-566 | in every run, with any number of awaitables and awaiters: once the child has left the map the coroutine of an await is suspended if and only if it came too late with another awaitable alive, or was overtaken by another await |
| SpawnWakeup.LostForGood | include/fiona/executor.hpp:424-438 | such a coroutine is never resumed |
| SpawnWakeup.OvertakenLosesWakeup | include/fiona/executor.hpp:562 | the run in which an await of a copy overwrites the continuation |
| SpawnWakeup.SharedAwaitLosesWakeup | include/fiona/executor.hpp:562 | the run in which a second await of the same awaitable overwrites the continuation |
| SpawnWakeup.NoLostWakeup | include/fiona/executor.hpp:424-438 | with one awaitable and one awaiter at a time, nobody is suspended once the child has left the map |
| SpawnWakeup.EscapesIffNoAwaitable | include/fiona/executor.hpp:468-478 | an exception escapes `resume` exactly when no awaitable is alive |
| SpawnWakeup.ErrorReachesOnePlace | include/fiona/executor.hpp:542-549 | with one awaitable, shared or not, an error reaches somebody who awaits or is recorded once, never both |
| SpawnWakeup.SecondAwaitableLosesWakeup | include/fiona/executor.hpp:557-566 | the run in which a second awaitable is suspended for good |
| SpawnWakeup.Task.AwaitSuspend | include/fiona/executor.hpp:557-566 | stores the continuation over any other; suspends if the child is in the map or another awaitable is alive |
| SpawnWakeup.Task.FinalSuspend | include/fiona/executor.hpp:424-438 | leaves the map and resumes the continuation read before |
| SpawnWakeup.Task.UnhandledException | include/fiona/executor.hpp:468-478 | stores the exception, or lets it escape if no awaitable is alive |
| SpawnWakeup.Task.AwaitResume | include/fiona/executor.hpp:568-573 | delivers the outcome and marks the awaitable as awaited |
| SpawnWakeup.Task.DestroyAwaitable | include/fiona/executor.hpp:542-549 | records an error nobody awaited and gives up its count |
| RunLoops.StartedOnceInOrder | src/io_context.cpp:233-236 | no task is started twice or before an older one |
| RunLoops.LargestBatchFitsIff | src/io_context.cpp:216-225 | the arrays hold the largest batch if and only if `cq_entries` is a power of two |
| RunLoops.RunLoop.Resume | src/io_context.cpp:233-236 | spawned tasks join queue and map, and exactly the started tasks that end leave the map |
| RunLoops.RunLoop.StartFront | src/io_context.cpp:233-236 | the front task is started, alive, while it is still in the queue; the tasks it spawns are queued behind and in the map, those it ends leave the map |
| RunLoops.RunLoop.Spawn | src/io_context.cpp:76-93 | a spawned or posted task is in the map and last in the queue |
| RunLoops.RunLoop.DrainQueue | src/io_context.cpp:232-243 | starts the queued tasks, front first and in the order of creation, all alive, including what is spawned meanwhile, unless an exception ends the run; keeps the account of tasks stated for `Run` |
| RunLoops.RunLoop.ProcessBatch | src/io_context.cpp:253-281 | every posted task, up to the first failure, is added to the map and to the back of the queue; the coroutines of the batch are collected in order; with at most `cq_entries` completions the array of handles never overflows |
| RunLoops.RunLoop.ResumeOne | src/io_context.cpp:284-286 | a collected coroutine is resumed; what it spawns is queued and in the map, what it ends leaves the map |
| RunLoops.RunLoop.ResumeHandles | src/io_context.cpp:284-286 | resumes each collected coroutine once, in order; a stored exception does not stop it, a thrown one does; keeps the account of tasks |
| RunLoops.RunLoop.Run | src/io_context.cpp:227-287 | the tasks created are those spawned by the resumptions and posted in the batches so far, none lost or added, and the map holds exactly those no resumption has ended; they are started in the order of creation, alive; the loop waits only with an empty queue and a non-empty map; a run that returns normally has started and ended every task |
| TlsRepack.PlainStops | src/tls/tls.cpp:438-455 | what arrives behind the end of the stream or behind an error is not decrypted |
| TlsRepack.PlainIsOpenPart | src/tls/tls.cpp:437-456 | the plaintext of a delivery is that of its buffers up to the first that ends the stream or makes the channel fail |
| TlsRepack.WiresMean | src/tls/tls.cpp:437-456 | a delivery completes a record or ends the stream, or fails, exactly if one of its buffers does and none before it stopped the loop |
| TlsRepack.TlsCallbacks.FillBack | src/tls/tls.cpp:287-297 | fills the spare room of the last buffer |
| TlsRepack.TlsCallbacks.FillNew | src/tls/tls.cpp:299-313 | appends one buffer of positive capacity, filled as far as the record goes |
| TlsRepack.TlsCallbacks.RecordReceived | src/tls/tls.cpp:280-315 | the loop ends; input bytes == bytes before + record; all buffers but the last are full; the buffers themselves are drawn first in, first out, and allocated only once the output is exhausted |
| TlsRepack.TlsCallbacks.Deliver | src/tls/tls.cpp:437-456 | one delivery adds exactly its plaintext; end of file is marked behind it |
| TlsRepack.TlsCallbacks.FeedChannel | src/tls/tls.cpp:443-450 | all records of one piece of ciphertext arrive in order; a buffer is at hand for the first |
| TlsRepack.TlsCallbacks.AsyncRecv | src/tls/tls.cpp:421-460 | no plaintext is lost, duplicated or reordered, whether it returns data, an error or is still waiting; it returns with the first delivery that completes a record, ends the stream or fails |
| SubmissionQueues.ReserveIsEnough | include/fiona/detail/get_sqe.hpp:34-41 | after reserving n, n entries can be taken without a submission if and only if the queue has n entries |
| SubmissionQueues.EntriesAreWhole | src/tcp.cpp:778-799 | every operation queues complete chains and no more than it reserves |
| SubmissionQueues.PerformKeepsChains | src/tcp.cpp:1213-1264 | an operation's entries follow everything queued before and are in one submission |
| SubmissionQueues.PerformSucceedsIff | src/tcp.cpp:1213-1272 | an operation gets its entries if and only if the queue has that many, whatever is queued |
| SubmissionQueues.DestroyKeepsInv | src/tcp.cpp:92-105 | the destructor's unreserved entry splits no chain |
| SubmissionQueues.StepKeepsChains | src/tcp.cpp:1213-1272 | every operation, submission and destructor keeps all chains whole |
| SubmissionQueues.NoChainIsSplit | src/tcp.cpp:537-551 | in every run, with submissions at any time, every submission is a concatenation of complete chains |
| SubmissionQueues.LinkedToItsOwn | src/tcp.cpp:780-795 | in every submission of every run a close stands directly behind a hard-linked cancellation of the same operation, a link timeout directly behind a linked connect, and the connect of an operation that creates a socket directly behind that linked socket |
| SubmissionQueues.OperationAdds | src/tcp.cpp:1213-1272 | which entries each operation and the destructor add behind everything queued before |
| SubmissionQueues.StepKeepsOrder | src/tcp.cpp:537-551 | every step keeps what is linked to what, and one connect per operation |
| SubmissionQueues.SubmissionQueue.ReserveSqes | include/fiona/detail/get_sqe.hpp:34-41 | submits everything queued if and only if there is too little room; otherwise changes nothing; then there is enough |
| SubmissionQueues.SubmissionQueue.GetSqe | include/fiona/detail/get_sqe.hpp:21-32 | always finds an entry behind what is queued, submitting first if and only if the queue is full |
| SubmissionQueues.SubmissionQueue.SuspendClose | src/tcp.cpp:771-805 | adds a hard-linked cancel, the close, and a timer removal if and only if the timer is live, in this order and in one submission |
| SubmissionQueues.SubmissionQueue.SuspendConnect | src/tcp.cpp:1195-1272 | adds a linked socket unless connected, a linked connect and its timeout, in this order and in one submission |
| SubmissionQueues.SubmissionQueue.DestroyStream | src/tcp.cpp:91-106 | one close entry, submitted at once |

## Left out

- Connecting when the socket step of the linked chain fails: both frames hold the same coroutine, and exactly-once resumption does not follow. Only the slot accounting of that case is modelled.
- Exceptions thrown inside `await_process_cqe`, and calling `run` again after it threw: an exception ends the modelled run.
- RefLedger.StreamImpl.DestroyHandle: the requests queued by `cancel_timer` and `cancel_recv` change no count; only the timer's flag is modelled here.
- SlotTable.CleanIffNoLateCompletion: the socket step of a connection is taken to succeed, and accepted connections are not part of this table.
- RunLoops.RunLoop.Run: what coroutines and the kernel do comes from finite scripts, so the statement is about every finite part of a run, not about progress.
- SpawnWakeup.SuspendedIffWakeupLost: a waiting coroutine that is destroyed before its child ends is not modelled; in the source this happens only while the task map is cleared.
- FileSlots.Runtime.GetAvailableFd: which free slot is taken is left open, as with the hash set of the source.
- SubmissionQueues.NoChainIsSplit: a submission is assumed to take the whole queue.
- TlsRepack.TlsCallbacks.RecordReceived: the buffer sequences are values here; update in place is proved for the list itself in RecvBufferSequence.dfy.
- IdleWindows.CancelWindow: ticks are exact multiples of the period after arming; clock jitter and 64-bit overflow of durations are not modelled.
- ShutdownDrain.Drain: the queue is given as everything the drain will find, including what destructors submit meanwhile.
- Task counts are unbounded integers; overflow of a 32-bit reference count is not modelled.
- Reuse of a freed buffer's or coroutine's address by the allocator.
- `fixed_buffers`: the destructor of `fixed_buffer` moves its own copy of the stack pointer, so nothing about the pool follows from this code.
- src/file.cpp and src/time.cpp: simpler one-shot versions of the same frame protocol.
- include/fiona/task.hpp value storage, unions, alignment and memory layout: a coroutine is an identifier with a state.
- TLS handshake, shutdown, certificates and cryptography: the channel is a script of the records it emits.
- DNS, address parsing, socket setup, threads, the cross-thread waker, pipe writes.
- Kernel liveness: that completions eventually arrive. The model proves that a completion is owed.
