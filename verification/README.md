# Verified model of the resylar base library

This project models the stateful core of the `resylar` networking library and proves what its
protocols keep over whole runs:

- the double-buffered asynchronous logger, with the fixed buffers it swaps and the rolling log file
  it writes to;
- the integer formatter and the log stream that build one record;
- the timer manager: an ordered set of pointers to timers whose order is read from the timers' own,
  changing deadlines;
- the coroutine scheduler's task queue and its stop test;
- the I/O manager's registration of events with the kernel, and its table of contexts, which can
  shrink.

`dafny verify dfyconfig.toml` checks everything.

## How it is built

Each component has two layers.

- A *protocol* module (`LogProtocol`, `TimerProtocol`, `SchedulerProtocol`, `EventProtocol`) gives a
  state, one total step function per critical section or unlocked phase of the source, and runs as
  arbitrary sequences of steps. Whole-run statements are lemmas about these runs: any number of
  threads, any interleaving, any history.
- A *class* (`AsyncLogging`, `Timer` and `TimerManager`, `Scheduler`, `FdContext` and `IOManager`)
  has the fields of the source and changes them in place, with the loops the source has. A ghost
  field `view` holds the protocol state; each public method ensures that `view` makes exactly the
  protocol's step and that the objects still agree with it. `FixedBuffer`, `AppendFile`, `LogFile`
  and `LogStream` are specified by their contents directly.

What the statements rest on:

- A lock makes a critical section one step, and a read outside any lock is a step of its own: the
  size `addEvent` reads before it locks the table may be any size the table has had, and the context
  it works on may be any that was looked up before; the period `Timer::reset` compares before it locks
  may be any. `AsyncLogging::threadFunc` waits with an `if`, so
  the model lets the swap happen at any moment. The backend's local variables are fields of the model's
  object, and the pointers swapped between threads are references to heap objects, so that aliasing
  is a statement and not an assumption.
- Clock readings, the addresses of timers, the states fibers show, refusals of `epoll_ctl` and the
  events it reports are parameters of the steps; the length of a short write is nondeterministic.
- `batches`, `written`, `finished`, the tickets that number scheduled tasks, `sizes`, `added`,
  `scheduled` and `deleted` are history variables: they record what happened and decide nothing,
  except that a ticket stands for the identity of a queued task. `made` lists the contexts ever made,
  because the source leaves those that fall out of the table in other hands.
- The text after the condition in `scheduler.h` line 87 lacks one slash to be a comment; it is read as
  one.
- 64-bit sums and differences wrap (`Add64`, `Sub64`), `/` and `%` truncate toward zero
  (section 5.6 of ISO/IEC 14882:2011), and the casts of lengths to `int` are written out.
- `Fiber::resume` is an opaque moment between picking a task and lowering the count, during which the
  task may schedule others. The callback branch of `Scheduler::run` builds a fiber and never resumes
  it; here, too, the task counts as finished when the count is lowered.
- The assertions of `AsyncLogging::threadFunc` are proved. Those of the I/O manager are taken as
  compiled out, because the one in `triggerEvent` contradicts its own comment: it complains when the
  event *is* registered.

Where the code falls short of what it is for, the code is kept and the exact condition is proved:

- The overload check loses messages exactly when a batch over 25 has a non-empty buffer from index 2
  on (`LossIff`); when no message fills a buffer by itself, exactly when a batch exceeds 25
  (`LargeBatchIff`). A buffer is left only when the next message no longer fits, so that takes at
  least 52 million bytes between two swaps (`LossNeedsBytes`), and 52 million can be enough
  (`OverloadIff`, `BoundIsMet`). Otherwise one more round after the last append writes everything
  (`DrainedExit`).
- `FixedBuffer::append` compares a length cast to `int`; the comparison can be trusted under the
  condition of `GuardSoundIff`.
- `detectClockRollover` subtracts without sign, so any step back within the first hour of the clock
  looks like a rollover (`RolloverIff`). An expiry whose reading was overtaken by another one can
  therefore move an announced deadline forward without waking anyone (`StaleReadingLosesWakeup`). A
  wake-up is lost exactly when an expiry detects a rollover with no wake-up under way and a recurring
  timer in the set whose next period, counted from its reading, ends before the announced deadline
  (`WakeupIff`); it never is while expiries read the clock in the order in which they take the lock
  (`NoLostWakeup`). In whatever order they read it, every queued timer's period began in the past
  (`PeriodsStarted`), so that `refresh` only postpones and the subtraction in `reset` never wraps.
- `getNextTimer` announces "no timer" for the empty set and for one degenerate deadline (`ForeverIff`,
  `ForeverIsReached`).
- `WRITE` is `0x3` and shares a bit with `READ`. The model takes the write mask as a parameter and
  proves which masks conserve events (`ConservationIff`); the value in the source is not among them,
  the value its comment announces is (`SourceMaskFails`). In the same way `DispatchIff` and `AddIff`
  say which reports and which additions conserve them, and `StaleReportFails` and `SecondAddFails`
  are runs that reach the others.
- `addEvent` decides from the size it read without the lock, and `contextResize` then sets the size it
  was asked for, so a late call can shorten the table another thread has lengthened
  (`ShrinkLosesTouch`). The events stay conserved in any interleaving (`EventProperties.RunKeepsInv`),
  but one that falls out of the table can no longer be deleted or cancelled, and a new addition for
  its descriptor is refused (`DroppedContextBlocks`). All contexts stay in the table if and only if no
  resize shrinks it (`CompleteIff`); all registered events stay within reach if and only if no resize
  drops one and no addition goes to a dropped context (`AlwaysFindableIff`). A lookup that trusts the
  size it read before the lock can then go past the end of the table; none can at any point of a run
  if and only if no resize shrinks the table (`AlwaysInsideIff`). Deciding from the size under the
  lock would do (`DecidingUnderLockSuffices`).

## Model

| member | source | states |
|---|---|---|
| `LogProtocol.RunKeepsInv` | resylar/base/AsyncLogging.cpp:27-115 | the logger invariant, with "no next buffer means the queue is not empty" and what each phase has written, holds after any interleaving of producers and backend |
| `LogProtocol.AssertionsNeverFail` | resylar/base/AsyncLogging.cpp:54-108 | no assertion in the backend loop can fail in any run: every round starts with two empty spares and a batch big enough to refill them |
| `LogProtocol.RunConserves` | resylar/base/AsyncLogging.cpp:27-72 | all batches ever swapped out, then the producers' buffers, are the accepted messages in lock order |
| `LogProtocol.WrittenAndUnwritten` | resylar/base/AsyncLogging.cpp:76-95 | what is written, then the rest of the current batch, is what all batches keep |
| `LogProtocol.StreamConservation` | resylar/base/AsyncLogging.cpp:27-115 | while no batch exceeds 25 buffers, written, unwritten and pending messages in this order are the accepted stream, so the log is a prefix of it |
| `LogProtocol.LossIff` | resylar/base/AsyncLogging.cpp:76-85 | for any run: that is so if and only if every buffer from index 2 on of every batch over 25 was empty, and otherwise messages are missing |
| `LogProtocol.LargeBatchIff` | resylar/base/AsyncLogging.cpp:76-85 | when no message is as long as a buffer, messages are lost if and only if a batch exceeded 25 buffers |
| `LogProtocol.LossIsExact` | resylar/base/AsyncLogging.cpp:76-85 | accepted messages are the written, the unwritten, the pending and those in buffers from index 2 on of batches over 25, as multisets and in number |
| `LogProtocol.OverloadIff` | resylar/base/AsyncLogging.cpp:76-85 | a family of runs: of messages of which no two in a row fit into one buffer, swapped out at once, all are to be written if there are at most 25, otherwise the first two only |
| `LogProtocol.BoundIsMet` | resylar/base/AsyncLogging.cpp:76-85 | 26 such messages need be no more than 52,000,000 bytes |
| `LogProtocol.QueuesOnlyWhenFull` | resylar/base/AsyncLogging.cpp:29-39 | a message that leaves a byte of the current buffer free joins it and moves no buffer; any other queues the current buffer and uses up the next one |
| `LogProtocol.BuffersAreMoved` | resylar/base/AsyncLogging.cpp:31-109 | a buffer is allocated exactly when one is queued and there is no next one, and let go of only by the overload check, the trimming and the clearing |
| `LogProtocol.RunKeepsPacked` | resylar/base/AsyncLogging.cpp:27-72 | in any run without oversize messages, in the queue and in every batch, each buffer and the first message of the one after it come to at least a whole buffer |
| `LogProtocol.QueueNeedsBytes` | resylar/base/AsyncLogging.cpp:27-72 | so each two buffers in the producers' hands stand for at least 4,000,000 bytes accepted since the last swap |
| `LogProtocol.LossNeedsBytes` | resylar/base/AsyncLogging.cpp:76-85 | and messages are lost only if at least 52,000,000 bytes were swapped out at once |
| `LogProtocol.ExitIff` | resylar/base/AsyncLogging.cpp:53 | in any run the thread has left its loop if and only if it has read the running flag as false at the head of the loop |
| `LogProtocol.RoundCompletes` | resylar/base/AsyncLogging.cpp:53-113 | a round undisturbed by appends ends at the head of the loop after a stated number of phases, with everything that was pending written unless it was more than 25 buffers |
| `LogProtocol.DrainedExit` | resylar/base/AsyncLogging.cpp:53-115 | one such round before the flag is read as false, and at the exit nothing is missing |
| `LogProtocol.LastSwapCuts` | resylar/base/AsyncLogging.cpp:59-72 | after any run, what was accepted before the last swap has been swapped out and what came later is still with the producers |
| `LogProtocol.ExitMissesOnlyTheTail` | resylar/base/AsyncLogging.cpp:53-115 | at the exit of the thread, whatever the run, the log holds what every batch kept, and exactly the messages after the last swap were never swapped out |
| `LogProtocol.AlwaysSafe` | resylar/base/AsyncLogging.cpp:87-109 | in any run a buffer about to be recycled has been written, whole and in one piece, and no assertion fails |
| `LogProtocol.MessageIsAtomic` | resylar/base/AsyncLogging.cpp:29-39 | a message shorter than a buffer ends up whole, last in the current buffer; a longer one is not stored and costs a buffer |
| `BufferPlaces.RotatedMatches` | resylar/base/AsyncLogging.cpp:31-37 | queueing the current buffer and going on with the next or a new one keeps all six places free of shared buffers and their contents as the protocol has them |
| `BufferPlaces.SwappedMatches` | resylar/base/AsyncLogging.cpp:64-71 | so does the exchange of the swap: nothing an appender can reach is in the batch or among the spares |
| `BufferPlaces.ShortenedMatches` | resylar/base/AsyncLogging.cpp:84-94 | so does letting go of the end of a batch |
| `BufferPlaces.RecycledMatches` | resylar/base/AsyncLogging.cpp:97-109 | so does turning the last buffer of the batch, emptied, into a spare |
| `AsyncLogger.AsyncLogging.constructor` | resylar/base/AsyncLogging.cpp:10-52 | four separate empty buffers, two for each side |
| `AsyncLogger.AsyncLogging.Append` | resylar/base/AsyncLogging.cpp:27-41 | one protocol append on the real buffers: text that fits moves no buffer, any other queues the current one, the next buffer is used if there is one and otherwise one is allocated; all buffers stay separate objects with separate storage |
| `AsyncLogger.AsyncLogging.LoopHead` | resylar/base/AsyncLogging.cpp:53-114 | the loop goes on or ends with the running flag, and after the end nothing of the log is unflushed |
| `AsyncLogger.AsyncLogging.Swap` | resylar/base/AsyncLogging.cpp:54-72 | the critical section: the batch is the queue with the current buffer at its end, the producers get two empty buffers, no buffer is on both sides |
| `AsyncLogger.AsyncLogging.Drop` | resylar/base/AsyncLogging.cpp:74-85 | a batch over 25 keeps its first two buffers, any other all |
| `AsyncLogger.AsyncLogging.WriteOne` | resylar/base/AsyncLogging.cpp:87-90 | the log file receives exactly the messages of the next buffer, after all earlier ones |
| `AsyncLogger.AsyncLogging.WriteEnd` | resylar/base/AsyncLogging.cpp:87-90 | the write loop ends after the last buffer and writes nothing more |
| `AsyncLogger.AsyncLogging.Trim` | resylar/base/AsyncLogging.cpp:92-95 | at most two buffers of the batch stay for reuse |
| `AsyncLogger.AsyncLogging.LastIsLogged` | resylar/base/AsyncLogging.cpp:99-107 | the bytes of the buffer about to be recycled are in the log file, in one piece |
| `AsyncLogger.AsyncLogging.PopBack` | resylar/base/AsyncLogging.cpp:99-101 | the last buffer leaves the batch and is emptied; no other buffer changes |
| `AsyncLogger.AsyncLogging.Recycle1` | resylar/base/AsyncLogging.cpp:97-102 | if it is missing, the first spare is the last buffer of the batch, emptied |
| `AsyncLogger.AsyncLogging.Recycle2` | resylar/base/AsyncLogging.cpp:104-109 | the second spare likewise, if the swap used it |
| `AsyncLogger.AsyncLogging.WrittenTurn` | resylar/base/AsyncLogging.cpp:97-109 | in any state a run can reach, whatever buffer is recycled, the bytes it held are in the log file in one piece |
| `AsyncLogger.AsyncLogging.Clear` | resylar/base/AsyncLogging.cpp:111-112 | the batch is emptied and nothing of the log is unflushed |
| `AsyncLogger.AsyncLogging.FlushLog` | resylar/base/AsyncLogging.cpp:112-114 | every byte of the open file is flushed, and what the log holds does not change |
| `AsyncLogger.AsyncLogging.BackendTurn` | resylar/base/AsyncLogging.cpp:53-114 | any backend phase is one protocol step, allocates no buffer, and leaves the log file with exactly the written messages, flushed outside the writing phases |
| `AsyncLogger.AsyncLogging.Run` | resylar/base/AsyncLogging.cpp:27-115 | any interleaving keeps objects and protocol in step, with all buffers apart and no assertion failing |
| `AsyncLogger.AsyncLogging.LogIsTheAcceptedStream` | resylar/base/AsyncLogging.cpp:27-115 | when only empty buffers were thrown away and no write stalled, the bytes in the log files, then unwritten, then pending bytes are the bytes of the accepted messages in lock order |
| `AsyncLogger.AsyncLogging.RoundEndsFlushed` | resylar/base/AsyncLogging.cpp:112-114 | at the head of the loop and after its end every byte of the open file is flushed |
| `FixedBuffers.FixedBuffer.constructor` | resylar/base/LogStream.h:15 | a new buffer is empty and has its own storage |
| `FixedBuffers.FixedBuffer.Append` | resylar/base/LogStream.h:19-24 | the whole text is added or nothing, and no byte past the cursor changes |
| `FixedBuffers.FixedBuffer.Add` | resylar/base/LogStream.h:31 | the bytes already placed at the cursor become contents |
| `FixedBuffers.FixedBuffer.Reset` | resylar/base/LogStream.h:33 | the buffer is empty again |
| `FixedBuffers.FixedBuffer.Bzero` | resylar/base/LogStream.h:34 | every byte is zero |
| `FixedBuffers.GuardSoundIff` | resylar/base/LogStream.h:20 | the length test can be trusted at every fill level if and only if the length survives the cast to `int` or its cast value is at least the buffer size |
| `LogFiles.AppendFile.Write` | resylar/base/FileUtil.cpp:37-39 | the C library takes some prefix |
| `LogFiles.AppendFile.Append` | resylar/base/FileUtil.cpp:20-33 | under any short writes a prefix is delivered, and everything unless a write took nothing |
| `LogFiles.AppendFile.Flush` | resylar/base/FileUtil.cpp:35 | everything taken so far is flushed |
| `LogFiles.LogFile.constructor` | resylar/base/LogFile.cpp:11-19 | starts with one empty open file |
| `LogFiles.LogFile.Append` | resylar/base/LogFile.cpp:23-35 | rolling happens exactly as in the file-by-file specification, a file rolled away is flushed to its end, and the files hold their texts unless a write took nothing |
| `LogFiles.LogFile.CloseFull` | resylar/base/LogFile.cpp:29-34 | the full file is flushed to its end and joins the closed ones, and a new one is open |
| `LogFiles.LogFile.AppendUnlocked` | resylar/base/LogFile.cpp:42-49 | the text joins the open file; the append that brings the count to `flushEveryN` flushes everything and resets the count, any other raises it and flushes nothing |
| `LogFiles.LogFile.RollFile` | resylar/base/LogFile.cpp:51-56 | a fresh empty file with both counters at zero |
| `LogFiles.LogFile.Flush` | resylar/base/LogFile.cpp:37-40 | every byte of the open file is flushed |
| `LogFiles.RollOnKeeps` | resylar/base/LogFile.cpp:29-34 | one append adds its text at the end of all files, whole, and closes a file exactly when it reaches the limit |
| `LogFiles.RollingConserves` | resylar/base/LogFile.cpp:23-56 | whatever is appended, all files together hold it in order, no append is split, every closed file was filled by its last append |
| `LogFiles.ClosedFileSize` | resylar/base/LogFile.cpp:29-34 | a closed file holds at least 2^30 bytes and less than 2^30 plus its last append |
| `LogFiles.LogFile.FilesHoldEverything` | resylar/base/LogFile.cpp:23-56 | with no stalled write the bytes in all files are the appended texts end to end |
| `LogFiles.LogFile.FewUnflushed` | resylar/base/LogFile.cpp:42-49 | at most `flushEveryN - 1` appends to the open file are unflushed, and what is unflushed is exactly the last of them |
| `LogStreams.MirroredTable` | resylar/base/LogStream.cpp:10-22 | the digit table gives the same digit for a remainder and its negative |
| `LogStreams.TruncatingDigits` | resylar/base/LogStream.cpp:20-21 | truncating division peels the digits of the magnitude, whatever the sign |
| `LogStreams.EmitDigits` | resylar/base/LogStream.cpp:16-23 | the digit loop writes the digits of the magnitude in reverse and nothing else |
| `LogStreams.Reverse` | resylar/base/LogStream.cpp:29 | reverses one part of the buffer in place and leaves the rest |
| `LogStreams.Convert` | resylar/base/LogStream.cpp:15-32 | writes the decimal text and a NUL, returns its length, touches no other byte |
| `LogStreams.TwentyCharacters` | resylar/base/LogStream.cpp:38-44 | any signed or unsigned 64-bit value takes at most 20 characters, so 32 free bytes suffice |
| `Decimals.RoundTrip` | resylar/base/LogStream.cpp:15-32 | parsing the text of any integer gives it back, and the text has no leading zero and a sign only for negative numbers |
| `Decimals.CanonicalRoundTrip` | resylar/base/LogStream.cpp:15-32 | every canonical text is the text of the number it parses to |
| `LogStreams.LogStream.constructor` | resylar/base/LogStream.h:102 | an empty record |
| `LogStreams.LogStream.FormatInteger` | resylar/base/LogStream.cpp:37-44 | the number is added whole if 32 bytes are free, otherwise not at all |
| `LogStreams.LogStream.Output` | resylar/base/LogStream.h:70-90 | an operator for a character, a C string, a string, a flag or an integer adds its whole text or nothing |
| `LogStreams.LogStream.OutputAll` | resylar/base/LogStream.h:70-90 | a sequence of such operators is the sequence of their effects |
| `LogStreams.LogStream.ResetBuffer` | resylar/base/LogStream.h:94 | the record is empty again |
| `LogStreams.RecordsAreWhole` | resylar/base/LogStream.h:19-24 | whatever is streamed, the record stays below 4000 characters and consists of whole renderings |
| `LogStreams.RenderedTexts` | resylar/base/LogStream.h:47-82 | the texts of flags, characters, strings and the null string |
| `LogStreams.CompleteIff` | resylar/base/LogStream.cpp:37-44 | a record is complete if and only if each number finds 32 free characters, and each text more than it has, behind everything in front of it |
| `LogStreams.ShortRecordsAreComplete` | resylar/base/LogStream.cpp:37-44 | a record of at most 3968 characters loses nothing |
| `LogStreams.RecordIsAccepted` | resylar/base/Logging.cpp:64-69 | every record a logger emits is stored whole by the asynchronous logger |
| `TimerProtocol.ComparatorIsStrictTotalOrder` | resylar/base/timer.cpp:5-23 | the comparator is irreflexive, transitive, asymmetric and total; it orders by deadline, then address, null pointers first |
| `TimerProtocol.LowerBound` | resylar/base/timer.cpp:160 | the first position whose key is not below the given one |
| `TimerProtocol.Find` | resylar/base/timer.cpp:43 | a position that is found holds the timer looked for |
| `TimerProtocol.FindSucceeds` | resylar/base/timer.cpp:43 | in a sorted set ordered search finds every member |
| `TimerProtocol.OutsiderMayChange` | resylar/base/timer.cpp:59-61 | changing a deadline outside the set leaves the order alone |
| `TimerProtocol.InsertAtFront` | resylar/base/timer.cpp:179-184 | an inserted timer is in front exactly when it is below all others |
| `TimerProperties.AddKeepsInv` | resylar/base/timer.cpp:99-106 | a new timer joins the sorted set with deadline now plus period; the wake-up flag is up afterwards exactly if it was or the timer came in front |
| `TimerProperties.CancelKeepsInv` | resylar/base/timer.cpp:39-48 | an armed timer leaves the set and loses its callback; nothing else changes |
| `TimerProperties.RefreshKeepsInv` | resylar/base/timer.cpp:50-63 | an armed timer's deadline becomes now plus period; nothing else changes |
| `TimerProperties.ResetKeepsInv` | resylar/base/timer.cpp:65-90 | an armed timer gets the new period, counted from now or back from its deadline by the old period, unless the period read before the lock is the new one and it is not to count from now; the flag is up afterwards exactly if it was or the timer came in front; the members of the set stay; true is returned exactly for an armed timer or a skip |
| `TimerProperties.ArmedIsFindable` | resylar/base/timer.cpp:39-90 | an armed timer is always found, so the not-found branches of `refresh` and `reset` are dead and `cancel` never erases the end |
| `TimerProperties.MoveTimer` | resylar/base/timer.cpp:59-61 | out, changed, in again: the set stays sorted with the same members |
| `TimerProperties.DueIsExact` | resylar/base/timer.cpp:159-163 | without rollover the timers cut off are exactly those with a deadline not after now, whatever the probe's address |
| `TimerProperties.ExpiryIsExact` | resylar/base/timer.cpp:137-177 | exactly the due timers' callbacks come out in queue order; recurring ones go back once at now plus period, one-shot ones are disarmed, others are untouched; on rollover all are due |
| `TimerProperties.FiredInOrder` | resylar/base/timer.cpp:164-176 | callbacks come out by deadline, those with the same deadline by address |
| `TimerProperties.NextAgreesWithExpiry` | resylar/base/timer.cpp:121-166 | an expiry yields callbacks from the announced moment on and not before |
| `TimerProperties.ForeverIff` | resylar/base/timer.cpp:121-135 | "no timer" is announced exactly for the empty set or the deadline ~0 read at clock 0 |
| `TimerProperties.ForeverIsReached` | resylar/base/timer.cpp:121-135 | a run that reaches the degenerate deadline |
| `TimerProperties.RolloverIff` | resylar/base/timer.cpp:191-199 | the check means "more than an hour back" if and only if the clock did not step back within its first hour |
| `TimerProperties.RunKeepsInv` | resylar/base/timer.cpp:39-199 | after any operations the set is strictly sorted by deadline and address, and every timer that still has a callback is in it |
| `TimerProperties.ArmedIffQueued` | resylar/base/timer.cpp:39-176 | with non-empty callbacks a timer has its callback exactly when it is in the set |
| `TimerProperties.TimerAccounting` | resylar/base/timer.cpp:39-177 | over any run a timer is cancelled with success at most once, a one-shot timer is collected or cancelled at most once in all, and it is still armed exactly if neither happened |
| `TimerProperties.CancelIsFinal` | resylar/base/timer.cpp:39-48 | after a successful `cancel` the callback is never collected |
| `TimerProperties.FlagIff` | resylar/base/timer.cpp:121-189 | in any run the wake-up flag is up if and only if `addTimer` or `reset` has put a timer in front since the last `getNextTimer` |
| `TimerTiming.ResetIsExact` | resylar/base/timer.cpp:65-90 | in any timely run a reset that is not skipped leaves an armed timer with the new period and the deadline now plus the new period, or the old deadline minus the old period plus the new; callback and recurrence stay |
| `TimerTiming.DeadlineLaw` | resylar/base/timer.cpp:26-177 | in any timely run every queued timer's deadline is the period it was given last after the moment its current period began, which is its adding, refreshing, resetting from now or last expiry |
| `TimerTiming.PeriodsStarted` | resylar/base/timer.cpp:50-189 | after any timely run, in whatever order the readings were taken, every queued timer's period began in the past and the set is sorted |
| `TimerTiming.RefreshOnlyPostpones` | resylar/base/timer.cpp:50-63 | since every period began in the past, `refresh` never brings a deadline forward |
| `TimerTiming.ResetDoesNotWrap` | resylar/base/timer.cpp:78-85 | for the same reason, the subtraction in `reset` never wraps |
| `TimerTiming.ExpireIff` | resylar/base/timer.cpp:164-176 | one expiry breaks the wake-up promise if and only if its reading looks like a rollover, no wake-up is under way, and a recurring timer's period counted from the reading ends before the deadline last announced |
| `TimerTiming.WakeupIff` | resylar/base/timer.cpp:50-189 | in any timely run no wake-up is lost at any point if and only if no expiry in it is of that kind |
| `TimerTiming.PreviousIsBehind` | resylar/base/timer.cpp:138-197 | while expiries read the clock in the order in which they take the lock, the time noted is never ahead of the next reading |
| `TimerTiming.NoLostWakeup` | resylar/base/timer.cpp:50-189 | in every timely run with such readings, at every point the wake-up flag is up or no deadline is before the one last announced, and every period began in the past |
| `TimerTiming.RolloverBringsForward` | resylar/base/timer.cpp:164-176 | on rollover a recurring timer moves to an earlier deadline with the flag unchanged |
| `TimerTiming.StaleReadingLosesWakeup` | resylar/base/timer.cpp:137-176 | a run of two expiring threads, with readings taken after the manager was made, that loses a wake-up |
| `TimerObjects.Timer.constructor` | resylar/base/timer.cpp:26-33 | the deadline is the clock plus the period, modulo 2^64 |
| `TimerObjects.Timer.Cancel` | resylar/base/timer.cpp:39-48 | one protocol cancel; true exactly if the timer was armed |
| `TimerObjects.Timer.Refresh` | resylar/base/timer.cpp:50-63 | one protocol refresh; true exactly if the timer was armed |
| `TimerObjects.Timer.ResetAfter` | resylar/base/timer.cpp:66-90 | whatever period was read before the lock: one protocol reset, with its result, and one wake-up exactly if it raised the flag |
| `TimerObjects.Timer.Reset` | resylar/base/timer.cpp:65-90 | a call no other thread gets between: the same with the timer's own period |
| `TimerObjects.TimerManager.constructor` | resylar/base/timer.cpp:92-94 | an empty set with the clock noted |
| `TimerObjects.TimerManager.LowerBound` | resylar/base/timer.cpp:160 | the search over the real timers finds the protocol's position |
| `TimerObjects.TimerManager.Find` | resylar/base/timer.cpp:43 | so does the search for one timer |
| `TimerObjects.TimerManager.InsertInSet` | resylar/base/timer.cpp:180 | ordered insertion, at the position returned |
| `TimerObjects.TimerManager.AddInSet` | resylar/base/timer.cpp:179-189 | inserts and wakes the waiter exactly if the timer came in front of a set nobody was woken for |
| `TimerObjects.TimerManager.AddTimer` | resylar/base/timer.cpp:99-106 | a new timer object, registered with one protocol step |
| `TimerObjects.TimerManager.GetNextTimer` | resylar/base/timer.cpp:121-135 | lowers the flag and returns the announced delay |
| `TimerObjects.TimerManager.DetectClockRollover` | resylar/base/timer.cpp:191-199 | the wrapping comparison as written, noting the reading |
| `TimerObjects.TimerManager.ExpiredEnd` | resylar/base/timer.cpp:159-163 | the loop stops where the specification says the due timers end |
| `TimerObjects.TimerManager.CollectOne` | resylar/base/timer.cpp:169-175 | one expired timer's callback, and its re-insertion or disarming |
| `TimerObjects.TimerManager.ListExpiredCb` | resylar/base/timer.cpp:137-177 | one protocol expiry on the objects, returning its callbacks in order |
| `TimerObjects.TimerManager.HasTimer` | resylar/base/timer.cpp:201-204 | whether the set has a timer |
| `SchedulerProtocol.FirstRunnable` | resylar/base/scheduler.cpp:137-156 | the scan stops at the first task that is neither pinned elsewhere nor a running fiber |
| `SchedulerProtocol.ScanTakesFirstRunnable` | resylar/base/scheduler.cpp:137-156 | one task leaves the queue and the rest keep their order; its thread is -1 or the worker's own and it is not a running fiber, and all before it name another thread or are running fibers |
| `SchedulerProtocol.NothingToTakeIff` | resylar/base/scheduler.cpp:137-156 | no task is taken exactly if every task is pinned elsewhere or a running fiber |
| `SchedulerProtocol.NoTickleMeansAllBusy` | resylar/base/scheduler.cpp:132-162 | when the scan wakes nobody, every task left is there only because its fiber is running |
| `SchedulerProtocol.TicklesIff` | resylar/base/scheduler.cpp:138-162 | the scan wakes another thread exactly if tasks remain behind the one taken or one in front names another thread |
| `SchedulerProtocol.RunKeepsFaithful` | resylar/base/scheduler.h:82-91 | in any run the queue holds tasks in the order in which they were scheduled, and every task queued or in flight has the work and thread it was scheduled with |
| `SchedulerProtocol.OldestFirst` | resylar/base/scheduler.cpp:132-162 | in any run the task a worker takes is the one scheduled first of those queued that it may run |
| `SchedulerProtocol.PickMoves` | resylar/base/scheduler.cpp:151-155 | exactly the picked task changes from queued to in flight |
| `SchedulerProtocol.RunKeepsInv` | resylar/base/scheduler.cpp:69-185 | in every run each scheduled task is queued, in flight or finished, exactly one of them, and the count is the number of workers between pick and decrement |
| `SchedulerProtocol.StoppingIsSound` | resylar/base/scheduler.cpp:69-73 | when `stopping` returns true, at its second read nothing is queued or in flight and every task is finished |
| `SchedulerProtocol.ToldToStopIff` | resylar/base/scheduler.cpp:91 | the stop flag is set if and only if a stop was requested |
| `SchedulerProtocol.StoppingIff` | resylar/base/scheduler.cpp:69-73 | in any run a `stopping` nobody gets between returns true if and only if a stop was requested and nothing is queued or in flight |
| `SchedulerProtocol.QuietStepIff` | resylar/base/scheduler.cpp:69-73 | exactly work scheduled from outside ends the quiet state |
| `SchedulerProtocol.QuietIsStable` | resylar/base/scheduler.cpp:69-73 | if only in-flight tasks schedule, quiet is for ever, nothing is picked again, and `stopping` never again returns false |
| `Schedulers.Scheduler.Enqueue` | resylar/base/scheduler.h:46-55 | the task goes to the end of the queue, with its work and thread, unless it is empty; a tickle is due exactly if the queue was empty |
| `Schedulers.Scheduler.PickTask` | resylar/base/scheduler.cpp:132-162 | the loop takes the first runnable task and tickles exactly if a task pinned elsewhere was passed or tasks remain behind |
| `Schedulers.Scheduler.FinishTask` | resylar/base/scheduler.cpp:163-176 | the task is finished and the count goes down, without the lock |
| `Schedulers.Scheduler.Stop` | resylar/base/scheduler.cpp:91 | the stop flag is set |
| `Schedulers.Scheduler.StoppingQueue` | resylar/base/scheduler.cpp:69-72 | false unless told to stop with an empty queue |
| `Schedulers.Scheduler.StoppingCount` | resylar/base/scheduler.cpp:72 | then true exactly if the count reads zero |
| `Schedulers.Scheduler.Run` | resylar/base/scheduler.cpp:69-185 | any possible interleaving keeps the object in step with the protocol |
| `EventProperties.RunKeepsInv` | resylar/base/iomanager.cpp:97-412 | with separate masks, after any interleaving of lookups, resizes, callers and event loop the counter is the number of waiting callbacks, each registration is waiting, scheduled or deleted exactly once, slots match bits, and the kernel watches each descriptor for exactly the events of the context it points to |
| `EventProperties.ConservationIff` | resylar/base/iomanager.h:15-23 | that holds in every allowed run if and only if the write mask is not empty and shares no bit with the read mask |
| `EventProperties.SourceMaskFails` | resylar/base/iomanager.h:19-22 | the value of `WRITE` is not such a mask, the value of EPOLLOUT is |
| `EventProperties.OverlapFails` | resylar/base/iomanager.cpp:161-198 | with a shared bit, deleting a read event nobody registered breaks the bookkeeping |
| `EventProperties.RegisteredIffWaiting` | resylar/base/iomanager.cpp:28-55 | a bit is set exactly when its callback is waiting, also after a trigger |
| `EventProperties.RemovalsFit` | resylar/base/iomanager.cpp:177-224 | a MOD or DEL that takes events away always fits what the kernel knows |
| `EventProperties.AdditionFitsIff` | resylar/base/iomanager.cpp:131-140 | the ADD or MOD chosen for an addition fits if and only if no other context of the descriptor has events |
| `EventProperties.GrowKeepsInv` | resylar/base/iomanager.cpp:97-118 | a resize, shrinking or not, loses no registration from the books |
| `EventProperties.CancelAllKeepsInv` | resylar/base/iomanager.cpp:237-278 | cancelling all leaves no event registered, as its final assertion says |
| `EventProperties.DispatchIff` | resylar/base/iomanager.cpp:376-412 | a report conserves the events if and only if all it names is registered or none of it is, and otherwise it triggers an event without a callback or scheduler |
| `EventProperties.AddIff` | resylar/base/iomanager.cpp:123-158 | an addition the kernel accepts conserves the events if and only if the event was not registered |
| `EventProperties.StaleReportFails` | resylar/base/iomanager.cpp:358-412 | a run that adds both events, deletes one and dispatches a report of both taken before: an event without a callback is triggered and the counter goes below zero |
| `EventProperties.SecondAddFails` | resylar/base/iomanager.cpp:123-158 | a run that adds one event twice: the kernel accepts it and the books no longer balance |
| `EventProperties.NothingPending` | resylar/base/iomanager.cpp:301-306 | the counter is zero exactly when the kernel watches nothing, and then every callback added was scheduled or deleted |
| `EventProperties.ComplaintIff` | resylar/base/iomanager.cpp:34-39 | `triggerEvent` complains exactly when the event is registered and has a callback waiting |
| `EventFates.AddFate` | resylar/base/iomanager.cpp:123-158 | an accepted addition puts the callback in the slot of its event and nowhere else, and the kernel watches for it |
| `EventFates.RemovesIff` | resylar/base/iomanager.cpp:172-189 | a deletion or cancellation succeeds exactly if the event's callback is waiting and the kernel does not refuse |
| `EventFates.DelFate` | resylar/base/iomanager.cpp:161-198 | `delEvent` drops exactly the callback of its event and schedules none |
| `EventFates.CancelFate` | resylar/base/iomanager.cpp:200-234 | `cancelEvent` schedules exactly the callback of its event and drops none |
| `EventFates.CancelAllFate` | resylar/base/iomanager.cpp:237-278 | `cancelAll` schedules both callbacks, read first |
| `EventFates.DispatchFate` | resylar/base/iomanager.cpp:376-412 | a report that is right about what is registered schedules the read callback exactly if it was waiting and bit 0 was reported or there was an error or hang-up, and the write callback for bit 2 or, if the write mask contains bit 2, an error or hang-up; read first |
| `EventFates.FatesAreExact` | resylar/base/iomanager.cpp:97-412 | in any allowed run the callbacks handed to the scheduler are those of cancellations and reports, in that order, and those dropped are those of successful deletions |
| `EventProtocol.Resized` | resylar/base/iomanager.cpp:97-107 | the table has the size asked for: pointers that still have a place are kept, new places get new contexts |
| `EventLookups.FindableIff` | resylar/base/iomanager.cpp:109-159 | one operation keeps every registered event within reach of a lookup if and only if it drops no context with events and adds none to a dropped context |
| `EventLookups.AlwaysFindableIff` | resylar/base/iomanager.cpp:109-278 | the same for every point of a run |
| `EventLookups.CompleteIff` | resylar/base/iomanager.cpp:97-118 | after any run every context made is in the table if and only if no resize shrank it |
| `EventLookups.CompleteIsSound` | resylar/base/iomanager.cpp:109-278 | while no resize shrinks the table, registered events are within reach and every addition fits what the kernel knows |
| `EventLookups.AlwaysInsideIff` | resylar/base/iomanager.cpp:109-118 | at no point of a run can a lookup trusting a size read earlier go past the end of the table, if and only if no resize made the table shorter |
| `EventLookups.DecidingUnderLockSuffices` | resylar/base/iomanager.cpp:111-116 | if every resize were decided from the size at that moment, the table would never shrink and no lookup go past its end |
| `EventLookups.ShrinkLosesTouch` | resylar/base/iomanager.cpp:109-118 | two threads adding descriptors 100 and 60: the table shrinks, a registered event is out of reach, and a lookup of its descriptor that trusts the size read in between goes past the end |
| `EventLookups.DroppedContextBlocks` | resylar/base/iomanager.cpp:114-140 | the descriptor's next context has no events and the kernel refuses its first addition |
| `IOManagers.FdContext.TriggerEvent` | resylar/base/iomanager.cpp:34-55 | the event is forgotten and its callback handed over |
| `IOManagers.IOManager.constructor` | resylar/base/iomanager.cpp:57-82 | 32 separate idle contexts, nothing pending |
| `IOManagers.IOManager.ContextResize` | resylar/base/iomanager.cpp:97-107 | the table takes any size, shorter ones included; contexts it keeps are unchanged, new ones are fresh objects numbered by descriptor |
| `IOManagers.IOManager.TableSize` | resylar/base/iomanager.cpp:111 | the size read without the lock is one the table has had |
| `IOManagers.IOManager.MakeRoom` | resylar/base/iomanager.cpp:114-116 | the resize decided by an earlier size, as one protocol step |
| `IOManagers.IOManager.ContextFor` | resylar/base/iomanager.cpp:110-118 | the lookup of `addEvent` finds the table's context for the descriptor |
| `IOManagers.IOManager.FindContext` | resylar/base/iomanager.cpp:163-170 | the lookup of the other operations finds the table's context, or nothing beyond the table |
| `IOManagers.IOManager.AddTo` | resylar/base/iomanager.cpp:121-158 | one protocol addition to a context looked up before; -1 exactly if the kernel refuses |
| `IOManagers.IOManager.DelFrom` | resylar/base/iomanager.cpp:172-197 | one protocol deletion; true exactly if the event was registered and the kernel agreed |
| `IOManagers.IOManager.CancelIn` | resylar/base/iomanager.cpp:210-233 | one protocol cancellation, scheduling the callback |
| `IOManagers.IOManager.FireIf` | resylar/base/iomanager.cpp:405-412 | one event among those named goes to the scheduler and is counted down, any other is left alone |
| `IOManagers.IOManager.CancelAllIn` | resylar/base/iomanager.cpp:248-277 | both events at once, each scheduled and counted down |
| `IOManagers.IOManager.AddEvent` | resylar/base/iomanager.cpp:109-159 | a call no other thread gets between: look, make room, add |
| `IOManagers.IOManager.DelEvent` | resylar/base/iomanager.cpp:161-198 | a call no other thread gets between: false beyond the table, otherwise one deletion |
| `IOManagers.IOManager.CancelEvent` | resylar/base/iomanager.cpp:200-234 | a call no other thread gets between: one cancellation |
| `IOManagers.IOManager.CancelAll` | resylar/base/iomanager.cpp:237-278 | a call no other thread gets between: false beyond the table, otherwise all events cancelled |
| `IOManagers.IOManager.Dispatch` | resylar/base/iomanager.cpp:368-412 | one reported pointer: the reported events fire, the rest stays with the kernel |
| `IOManagers.OpsOfSnoc` | resylar/base/iomanager.cpp:368-376 | a batch stands for one dispatch per entry that is not the tickle pipe, in the order of the batch |
| `IOManagers.IOManager.DispatchBatch` | resylar/base/iomanager.cpp:358-413 | the loop over a batch performs its dispatches in order and skips the tickle pipe |
| `IOManagers.IOManager.Run` | resylar/base/iomanager.cpp:97-413 | any interleaving of the sections of any number of threads keeps the objects in step with the protocol |

## Left out

- TimerTiming.NoLostWakeup: assumes that expiries read the clock in the order in which they take the lock, that the clock does not go back and that deadlines do not exceed 64 bits; WakeupIff is exact without the first assumption, and StaleReadingLosesWakeup shows that it cannot simply be dropped.
- FixedBuffers.FixedBuffer.Append: requires the length test to be sound for this text; where it is not, which GuardSoundIff says exactly, the source writes past the end of the buffer.
- AsyncLogger.AsyncLogging.Append: requires the length to be an `int`, as the parameter's type in the source does.
- LogFiles.LogFile.Append: requires `curSize_` not to overflow, which holds for every text up to a large buffer; the log file is used by one thread, because the source updates `curSize_` outside its lock.
- LogFiles.LogFile.RollFile: two files rolled within the same second get the same name in the source and are appended to each other; the model gives each its own contents.
- LogStreams.LogStream.Output: the operators for floating-point numbers and pointers, which go through library calls, are not among the items.
- LogStreams.LogStream.OutputAll: the same.
- Schedulers.Scheduler.FinishTask: does not model what a task does; `fiber.cpp` has empty bodies for resuming and yielding, and the callback branch never resumes the fiber it builds.
- Schedulers.Scheduler.Stop: models the assignment of the flag; the early return, the tickles and the joins around it are left out.
- IOManagers.IOManager.CancelEvent: requires the descriptor to be in the table, because the source reads the table before it checks the size.
- IOManagers.IOManager.ContextFor: requires the descriptor to be in the table still if the size read earlier had it there, because the source does not check again; AlwaysInsideIff says exactly which runs keep it so, and ShrinkLosesTouch is one that does not.
- IOManagers.IOManager.Dispatch: a trigger without a registered callback calls through a null scheduler in the source; the model counts on, and DispatchIff says exactly when it happens.
- IOManagers.IOManager.AddTo: the scheduler noted with the callback is the caller's own and is null outside any scheduler, where a later trigger calls through it; callers are taken to run on a scheduler.
- Negative descriptors, which index the table from below in the source, and use of the tickle pipe's own descriptor with `addEvent`.
- Closing a registered descriptor, at which the kernel drops its interest without `epoll_ctl`; in the model the kernel's list changes through `epoll_ctl` only.
- What `epoll_wait` returns and when, the tickle pipe's contents, the edge-triggered flag and the timeout's cast to `int`.
- `IOManager::stopping`, which reads timers, counter and queue at three moments and is not an atomic test.
- Starting and joining threads, `Scheduler::start`, the idle counter, and the scheduler's use of the calling thread; the workers are given.
- Draining on shutdown: `AsyncLogging::stop` does not force a last swap, so messages appended after it stay in memory; ExitMissesOnlyTheTail says exactly which.
- `addConditionTimer`, which wraps its callback and calls `addTimer`.
- Time strings in log records, file names and host names.
- Fiber contexts, hooks, configuration, socket, HTTP and thread wrappers.
