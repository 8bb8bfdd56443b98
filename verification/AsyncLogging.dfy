/**
 The asynchronous logger over real buffer objects.  Each critical section of the source and
 each unlocked phase of the backend loop is one method; the protocol state `view` says what
 each buffer holds, and every method moves `view` by exactly one step of the protocol.
 */
module AsyncLogger {
  import opened Machine
  import opened Sequences
  import opened FixedBuffers
  import opened BufferPlaces
  import opened LogFiles
  import P = LogProtocol

  /** A large buffer whose bytes are these messages, end to end. */
  ghost predicate Holds(b: FixedBuffer, chunk: P.Chunk)
    reads b, b.data
  {
    b.Valid() && b.data.Length == P.LARGE_BUFFER && b.Contents() == Concat(chunk)
  }

  class AsyncLogging {
    // shared between the producers and the backend thread
    var currentBuffer: FixedBuffer
    var nextBuffer: FixedBuffer?
    var buffers: seq<FixedBuffer>

    // local to the backend thread
    const output: LogFile
    var newBuffer1: FixedBuffer?
    var newBuffer2: FixedBuffer?
    var buffersToWrite: seq<FixedBuffer>
    var index: nat
    var phase: P.Phase

    /** What the buffers hold, as a state of the protocol. */
    ghost var view: P.State
    /** What each buffer in play holds. */
    ghost var held: map<FixedBuffer, P.Chunk>
    /** The buffers and their storage. */
    ghost var repr: set<object>

    ghost function Where(): Places
      reads `currentBuffer, `nextBuffer, `buffers, `newBuffer1, `newBuffer2, `buffersToWrite, `held
    {
      Places(currentBuffer, nextBuffer, buffers, newBuffer1, newBuffer2, buffersToWrite, held)
    }

    ghost predicate OwnStorage()
      reads `held
    {
      forall b, c {:trigger b.data, c.data} | b in held && c in held && b != c :: b.data != c.data
    }

    /** Every buffer in play holds what it is said to, in storage of its own. */
    ghost predicate Backed()
      reads `held, `repr, repr
    {
      && this !in repr && OwnStorage()
      && (forall b {:trigger held[b]} | b in held :: b in repr && b.data in repr)
      && (forall b {:trigger Holds(b, held[b])} | b in held :: Holds(b, held[b]))
    }

    ghost predicate Valid()
      reads this, repr
    {
      Backed() && Matches(Where(), view) && phase == view.phase && index == view.index
    }

    /** Records that the objects, placed like this, hold the protocol state `s`. */
    ghost method Become(p: Places, s: P.State)
      requires Backed() && Where() == p && Matches(p, s) && phase == s.phase && index == s.index
      modifies this`view
      ensures view == s
      ensures Valid()
    {
      view := s;
    }

    constructor (output: LogFile)
      ensures fresh(repr)
      ensures view == P.Init() && this.output == output
      ensures Valid()
    {
      var b1, b2 := NewPair();
      var b3, b4 := NewPair();
      this.output := output;
      currentBuffer, nextBuffer, newBuffer1, newBuffer2 := b1, b2, b3, b4;
      buffers, buffersToWrite := [], [];
      index, phase := 0, P.AtLoopHead;
      view, held := P.Init(), map[b1 := [], b2 := [], b3 := [], b4 := []];
      repr := {b1, b1.data, b2, b2.data, b3, b3.data, b4, b4.data};
      new;
      InitMatches(b1, b2, b3, b4);
      assert forall b | b in held :: b == b1 || b == b2 || b == b3 || b == b4;
    }

    static method NewPair() returns (b: FixedBuffer, c: FixedBuffer)
      ensures fresh(b) && fresh(b.data) && fresh(c) && fresh(c.data)
      ensures b != c && b.data != c.data && Holds(b, []) && Holds(c, [])
    {
      b := new FixedBuffer(P.LARGE_BUFFER);
      c := new FixedBuffer(P.LARGE_BUFFER);
      assert Concat<char>([]) == [];
    }

    // -------------------------------------------------------------- producers

    /** Copies into the current buffer, if the text fits. */
    method AppendHere(text: seq<char>)
      requires Backed() && currentBuffer in held && |text| <= INT32_MAX
      modifies this`held, currentBuffer, currentBuffer.data
      ensures var was := old(held[currentBuffer]);
              Where() == Rewritten(old(Where()), if P.Avail(was) > |text| then was + [text] else was)
      ensures Backed()
    {
      var b := currentBuffer;
      assert Holds(b, held[b]);
      ConcatSnoc(held[b], text);
      b.Append(text);
      OthersStill(b);
      held := held[b := if P.Avail(held[b]) > |text| then held[b] + [text] else held[b]];
    }

    /** Changing one buffer changes no other. */
    twostate lemma OthersStill(b: FixedBuffer)
      requires old(Backed()) && b in held && held == old(held) && repr == old(repr)
      requires forall o: object | o in repr && o != b && o != b.data :: unchanged(o)
      ensures forall c {:trigger Holds(c, held[c])} | c in held && c != b :: Holds(c, held[c])
    {
      forall c | c in held && c != b
        ensures Holds(c, held[c])
      {
        assert old(Holds(c, held[c]));
        assert c.data != b.data;
      }
    }

    /** Queues the current buffer and goes on with the empty buffer `b`. */
    method Rotate(b: FixedBuffer)
      modifies this`currentBuffer, this`nextBuffer, this`buffers
      ensures Where() == Rotated(old(Where()), b).(held := held)
    {
      buffers := buffers + [currentBuffer];
      currentBuffer := b;
      nextBuffer := null;
    }

    /** The buffer `append` goes on with once the current one is full. */
    method TakeSpare() returns (b: FixedBuffer)
      requires Backed() && Puts(held, nextBuffer, nextBuffer != null)
      modifies this`held, this`repr
      ensures fresh(repr - old(repr)) && old(repr) <= repr
      ensures b == nextBuffer || (fresh(b) && fresh(b.data))
      ensures nextBuffer != null ==> b == nextBuffer && repr == old(repr)
      ensures Spare(old(Where()), b) && held == old(held)[b := []]
      ensures Backed()
    {
      if nextBuffer != null {
        b := nextBuffer;
      } else {
        b := new FixedBuffer(P.LARGE_BUFFER);
        assert Concat<char>([]) == [];
        held, repr := held[b := []], repr + {b, b.data};
      }
    }

    /** Called by any producer, under the lock. Text that fits goes into the current buffer; otherwise
        the buffer is queued, and one is allocated only when there is no next one. */
    method Append(logline: seq<char>)
      requires Valid() && |logline| <= INT32_MAX
      modifies this`currentBuffer, this`nextBuffer, this`buffers, this`held, this`repr, this`view
      modifies currentBuffer, currentBuffer.data
      modifies if nextBuffer == null then {} else {nextBuffer, nextBuffer.data}
      ensures fresh(repr - old(repr)) && old(repr) <= repr
      ensures |logline| < old(currentBuffer.Avail()) ==>
                currentBuffer == old(currentBuffer) && nextBuffer == old(nextBuffer) && buffers == old(buffers)
      ensures |logline| >= old(currentBuffer.Avail()) ==>
                buffers == old(buffers) + [old(currentBuffer)] && nextBuffer == null
      ensures old(nextBuffer) != null ==>
                currentBuffer in {old(currentBuffer), old(nextBuffer)} && repr == old(repr)
      ensures view == P.AppendStep(old(view), logline)
      ensures Valid()
    {
      ghost var p, s := Where(), view;
      P.AppendLeavesBackend(s, logline);
      assert Holds(currentBuffer, held[currentBuffer]);
      if currentBuffer.Avail() > |logline| {
        RewrittenMatches(p, s, s.current + [logline]);
        AppendHere(logline);
      } else {
        ghost var b := AppendRotating(logline);
        AppendedMatches(p, s, b, logline);
      }
      Become(Where(), P.AppendStep(s, logline));
    }

    /** The current buffer is full: queue it and copy into the next one. */
    method AppendRotating(logline: seq<char>) returns (ghost b: FixedBuffer)
      requires Backed() && Puts(held, nextBuffer, nextBuffer != null) && |logline| <= INT32_MAX
      modifies this`currentBuffer, this`nextBuffer, this`buffers, this`held, this`repr
      modifies if nextBuffer == null then {} else {nextBuffer, nextBuffer.data}
      ensures fresh(repr - old(repr)) && old(repr) <= repr
      ensures old(nextBuffer) != null ==> b == old(nextBuffer) && repr == old(repr)
      ensures Spare(old(Where()), b) && Where() == Appended(old(Where()), b, logline)
      ensures Backed()
    {
      var spare := TakeSpare();
      b := spare;
      Rotate(spare);
      assert Concat<char>([]) == [];
      assert [] + [logline] == [logline];
      AppendHere(logline);
    }

    // -------------------------------------------------------------- backend thread

    /** The log file has been handed exactly the bytes of the messages written so far. */
    ghost predicate LogHolds(written: seq<P.Message>)
      reads `repr, output, output.file
    {
      && output !in repr && output.file !in repr
      && output.Valid() && Concat(Texts(output.view)) == Concat(written)
    }

    /** Outside the part of a round that writes, every append to the log file has been flushed. */
    ghost predicate LogFlushed()
      reads `phase, output`unflushed
    {
      P.Settled(phase) ==> output.unflushed == 0
    }

    method FlushLog(ghost written: seq<P.Message>)
      requires LogHolds(written)
      modifies output`unflushed, output.file`flushed
      ensures LogHolds(written)
      ensures output.unflushed == 0 && output.file.flushed == |output.file.contents|
    {
      output.Flush();
    }

    /** `while (running_)`; after the loop, a last flush. */
    method LoopHead(running: bool)
      requires Valid() && phase.AtLoopHead? && LogHolds(view.written)
      modifies this`phase, this`view, output`unflushed, output.file`flushed
      ensures LogHolds(view.written)
      ensures output.unflushed == if running then old(output.unflushed) else 0
      ensures view == P.HeadStep(old(view), running)
      ensures Valid()
    {
      TestRunning(running);
      if !running {
        FlushLog(view.written);
      }
    }

    method TestRunning(running: bool)
      requires Valid() && phase.AtLoopHead?
      modifies this`phase, this`view
      ensures view == P.HeadStep(old(view), running) && view.written == old(view.written)
      ensures Valid()
    {
      phase := if running then P.AtSwap else P.Exited;
      Become(Where(), P.HeadStep(view, running));
    }

    /** The critical section: queue the current buffer, take the whole queue away, and leave the
        producers two empty buffers. */
    method Swap()
      requires Valid() && phase.AtSwap?
      requires newBuffer1 != null && newBuffer2 != null && buffersToWrite == []
      modifies this`currentBuffer, this`nextBuffer, this`buffers
      modifies this`newBuffer1, this`newBuffer2, this`buffersToWrite, this`phase, this`view
      ensures view == P.SwapStep(old(view))
      ensures Valid()
    {
      SparesAreEmpty();
      assert newBuffer1 != null && newBuffer1.Length() == 0;
      assert newBuffer2 != null && newBuffer2.Length() == 0;
      assert buffersToWrite == [];
      SwappedMatches(Where(), view);
      Exchange();
      phase := P.AtDrop;
      Become(Where(), P.SwapStep(view));
    }

    lemma SparesAreEmpty()
      requires Backed() && Placed(Where(), view)
      ensures newBuffer1 != null ==> newBuffer1.cur == 0
      ensures newBuffer2 != null ==> newBuffer2.cur == 0
    {
      assert newBuffer1 != null ==> Holds(newBuffer1, held[newBuffer1]);
      assert newBuffer2 != null ==> Holds(newBuffer2, held[newBuffer2]);
      assert Concat<char>([]) == [];
    }

    method Exchange()
      requires newBuffer1 != null && newBuffer2 != null && buffersToWrite == []
      modifies this`currentBuffer, this`nextBuffer, this`buffers
      modifies this`newBuffer1, this`newBuffer2, this`buffersToWrite
      ensures Where() == Swapped(old(Where()))
    {
      buffers := buffers + [currentBuffer];
      currentBuffer := newBuffer1;
      newBuffer1 := null;
      buffersToWrite, buffers := buffers, buffersToWrite;
      if nextBuffer == null {
        nextBuffer := newBuffer2;
        newBuffer2 := null;
      }
    }

    /** Keeps only the first `n` buffers of the batch. */
    method Shorten(n: nat)
      requires n <= |buffersToWrite|
      modifies this`buffersToWrite
      ensures Where() == Shortened(old(Where()), n)
    {
      buffersToWrite := buffersToWrite[..n];
    }

    /** Overload protection: of a batch of more than 25 only the first two buffers survive. */
    method Drop()
      requires Valid() && phase.AtDrop? && buffersToWrite != []
      modifies this`buffersToWrite, this`index, this`phase, this`view
      ensures view == P.DropStep(old(view))
      ensures Valid()
    {
      assert buffersToWrite != [];
      if |buffersToWrite| > P.MAX_BATCH {
        ShortenedMatches(Where(), view, P.KEPT_BUFFERS);
        Shorten(P.KEPT_BUFFERS);
      }
      index := 0;
      phase := P.AtWrite;
      Become(Where(), P.DropStep(view));
    }

    /** The body of the write loop. */
    method WriteOne()
      requires Valid() && LogHolds(view.written) && phase.AtWrite? && index < |buffersToWrite|
      modifies this`index, this`view, output, output.file
      ensures output.file == old(output.file) || fresh(output.file)
      ensures LogHolds(view.written) && view == P.WriteStep(old(view))
      ensures Valid()
    {
      var b := buffersToWrite[index];
      assert Holds(b, held[b]);
      WriteBytes(b.data[..b.cur], view.batch[index]);
      NextIndex();
    }

    method NextIndex()
      requires Valid() && phase.AtWrite? && index < |buffersToWrite|
      modifies this`index, this`view
      ensures view == P.WriteStep(old(view))
      ensures view.written == old(view.written) + old(view).batch[old(index)]
      ensures Valid()
    {
      index := index + 1;
      Become(Where(), P.WriteStep(view));
    }

    /** The write loop is over. */
    method WriteEnd()
      requires Valid() && phase.AtWrite? && index >= |buffersToWrite|
      modifies this`phase, this`view
      ensures view == P.WriteStep(old(view)) && view.written == old(view.written)
      ensures Valid()
    {
      phase := P.AtTrim;
      Become(Where(), P.WriteStep(view));
    }

    method WriteBytes(bytes: seq<char>, ghost chunk: P.Chunk)
      requires LogHolds(view.written)
      requires bytes == Concat(chunk) && |bytes| <= P.LARGE_BUFFER
      modifies output, output.file
      ensures LogHolds(view.written + chunk)
      ensures output.file == old(output.file) || fresh(output.file)
    {
      RollOnKeeps(output.view, bytes);
      ConcatSnoc(Texts(output.view), bytes);
      ConcatAdd(view.written, chunk);
      output.Append(bytes);
    }

    /** Keeps at most two written buffers for reuse. */
    method Trim()
      requires Valid() && phase.AtTrim?
      modifies this`buffersToWrite, this`phase, this`view
      ensures view == P.TrimStep(old(view))
      ensures Valid()
    {
      if |buffersToWrite| > P.KEPT_BUFFERS {
        ShortenedMatches(Where(), view, P.KEPT_BUFFERS);
        Shorten(P.KEPT_BUFFERS);
      }
      phase := P.AtRecycle1;
      Become(Where(), P.TrimStep(view));
    }

    /** The bytes the log file has been handed, file after file. */
    ghost function Logged(): seq<char>
      reads output
    {
      Concat(Texts(output.view))
    }

    /** The bytes of the buffer `pop_back` takes next. */
    ghost function LastBytes(): seq<char>
      requires buffersToWrite != []
      reads `buffersToWrite, buffersToWrite, set b | b in buffersToWrite :: b.data
    {
      var b := buffersToWrite[|buffersToWrite| - 1];
      if b.cur <= b.data.Length then b.data[..b.cur] else []
    }

    /** The last buffer of a batch that is being recycled has been written: all its bytes are in the
        log, in one piece. */
    lemma LastIsLogged()
      requires Backed() && Placed(Where(), view)
      requires LogHolds(view.written) && P.RecyclesWritten(view)
      requires view.phase.AtRecycle1? || view.phase.AtRecycle2?
      ensures buffersToWrite != [] ==> P.Contains(Logged(), LastBytes())
    {
      if buffersToWrite != [] {
        var n := |view.batch| - 1;
        assert Holds(buffersToWrite[n], held[buffersToWrite[n]]);
        P.ContainedBytes(view.written, view.batch[n]);
      }
    }

    /** Takes the last buffer out of the batch and empties it for reuse. */
    method PopBack() returns (b: FixedBuffer)
      requires Backed() && buffersToWrite != [] && buffersToWrite[|buffersToWrite| - 1] in held
      modifies this`buffersToWrite, this`held, buffersToWrite[|buffersToWrite| - 1]
      ensures b == old(buffersToWrite)[|old(buffersToWrite)| - 1]
      ensures Where() == Popped(old(Where()))
      ensures Backed()
    {
      var n := |buffersToWrite| - 1;
      b := buffersToWrite[n];
      assert Holds(b, held[b]);
      buffersToWrite := buffersToWrite[..n];
      b.Reset();
      OthersStill(b);
      assert Concat<char>([]) == [];
      held := held[b := []];
    }

    method Refill1()
      requires Backed() && buffersToWrite != [] && buffersToWrite[|buffersToWrite| - 1] in held
      modifies this`newBuffer1, this`buffersToWrite, this`held, buffersToWrite[|buffersToWrite| - 1]
      ensures Where() == Recycled1(old(Where()))
      ensures Backed()
    {
      newBuffer1 := PopBack();
    }

    method Refill2()
      requires Backed() && buffersToWrite != [] && buffersToWrite[|buffersToWrite| - 1] in held
      modifies this`newBuffer2, this`buffersToWrite, this`held, buffersToWrite[|buffersToWrite| - 1]
      ensures Where() == Recycled2(old(Where()))
      ensures Backed()
    {
      newBuffer2 := PopBack();
    }

    method Recycle1()
      requires Valid() && phase.AtRecycle1? && (newBuffer1 == null ==> buffersToWrite != [])
      requires newBuffer1 == null ==> P.Contains(Logged(), LastBytes())
      modifies this`newBuffer1, this`buffersToWrite, this`held, this`phase, this`view
      modifies buffersToWrite
      ensures old(newBuffer1) == null ==> P.Contains(Logged(), old(LastBytes()))
      ensures view == P.Recycle1Step(old(view)) && view.written == old(view.written)
      ensures Valid()
    {
      if newBuffer1 == null {
        assert buffersToWrite != [];
        RecycledMatches(Where(), view);
        Refill1();
      }
      phase := P.AtRecycle2;
      Become(Where(), P.Recycle1Step(view));
    }

    method Recycle2()
      requires Valid() && phase.AtRecycle2? && (newBuffer2 == null ==> buffersToWrite != [])
      requires newBuffer2 == null ==> P.Contains(Logged(), LastBytes())
      modifies this`newBuffer2, this`buffersToWrite, this`held, this`phase, this`view
      modifies buffersToWrite
      ensures old(newBuffer2) == null ==> P.Contains(Logged(), old(LastBytes()))
      ensures view == P.Recycle2Step(old(view)) && view.written == old(view.written)
      ensures Valid()
    {
      if newBuffer2 == null {
        assert buffersToWrite != [];
        RecycledMatches(Where(), view);
        Refill2();
      }
      phase := P.AtClear;
      Become(Where(), P.Recycle2Step(view));
    }

    /** The end of a round: forget the batch and flush the log. */
    method Clear()
      requires Valid() && phase.AtClear? && LogHolds(view.written)
      modifies this`buffersToWrite, this`phase, this`view, output`unflushed, output.file`flushed
      ensures LogHolds(view.written) && output.unflushed == 0
      ensures view == P.ClearStep(old(view))
      ensures Valid()
    {
      Forget();
      FlushLog(view.written);
    }

    /** Lets go of the rest of the batch. */
    method Forget()
      requires Valid() && phase.AtClear?
      modifies this`buffersToWrite, this`phase, this`view
      ensures view == P.ClearStep(old(view)) && view.written == old(view.written)
      ensures Valid()
    {
      ShortenedMatches(Where(), view, 0);
      Shorten(0);
      phase := P.AtLoopHead;
      Become(Where(), P.ClearStep(view));
    }

    // -------------------------------------------------------------- whole runs

    /** The phases that only move buffers about. */
    method MoveTurn(running: bool)
      requires Valid() && P.AssertionsHold(view)
      requires phase.AtSwap? || phase.AtDrop? || phase.AtTrim? || (phase.AtWrite? && index >= |buffersToWrite|)
      modifies this`currentBuffer, this`nextBuffer, this`buffers, this`newBuffer1, this`newBuffer2
      modifies this`buffersToWrite, this`index, this`phase, this`view
      ensures view == P.BackendStep(old(view), running) && view.written == old(view.written)
      ensures P.Settled(phase) ==> P.Settled(old(phase))
      ensures Valid()
    {
      match phase
      case AtSwap => Swap();
      case AtDrop => Drop();
      case AtWrite => WriteEnd();
      case AtTrim => Trim();
    }

    /** The phases that recycle a buffer. */
    method RecycleTurn(running: bool)
      requires Valid() && P.AssertionsHold(view) && (phase.AtRecycle1? || phase.AtRecycle2?)
      requires buffersToWrite != [] ==> P.Contains(Logged(), LastBytes())
      modifies this`newBuffer1, this`newBuffer2, this`buffersToWrite, this`held, this`phase, this`view
      modifies buffersToWrite
      ensures view == P.BackendStep(old(view), running) && view.written == old(view.written)
      ensures !P.Settled(phase)
      ensures Valid()
    {
      if phase.AtRecycle1? {
        Recycle1();
      } else {
        Recycle2();
      }
    }

    /** They recycle written buffers only. */
    method WrittenTurn(running: bool)
      requires Valid() && P.Safe(view) && LogHolds(view.written) && (phase.AtRecycle1? || phase.AtRecycle2?)
      modifies this`newBuffer1, this`newBuffer2, this`buffersToWrite, this`held, this`phase, this`view
      modifies buffersToWrite
      ensures old(buffersToWrite) != [] ==> P.Contains(Logged(), old(LastBytes()))
      ensures view == P.BackendStep(old(view), running) && view.written == old(view.written)
      ensures !P.Settled(phase)
      ensures Valid()
    {
      LastIsLogged();
      RecycleTurn(running);
    }

    /** The phases at the two ends of a round. */
    method EndTurn(running: bool)
      requires Valid() && LogHolds(view.written) && LogFlushed()
      requires phase.AtLoopHead? || phase.AtClear? || phase.Exited?
      modifies this`buffersToWrite, this`phase, this`view, output`unflushed, output.file`flushed
      ensures LogHolds(view.written) && LogFlushed()
      ensures view == P.BackendStep(old(view), running)
      ensures Valid()
    {
      if phase.AtLoopHead? {
        LoopHead(running);
      } else if phase.AtClear? {
        Clear();
      }
    }

    /** The phases that write nothing to the log file. */
    method QuietTurn(running: bool)
      requires Valid() && LogHolds(view.written) && LogFlushed() && P.Safe(view)
      requires phase.AtWrite? ==> index >= |buffersToWrite|
      modifies this, repr, output`unflushed, output.file`flushed
      ensures repr == old(repr)
      ensures LogHolds(view.written) && LogFlushed()
      ensures view == P.BackendStep(old(view), running)
      ensures Valid()
    {
      if phase.AtLoopHead? || phase.AtClear? || phase.Exited? {
        EndTurn(running);
      } else if phase.AtRecycle1? || phase.AtRecycle2? {
        WrittenTurn(running);
      } else {
        MoveTurn(running);
      }
    }

    /** The next backend phase, whichever it is. */
    method BackendTurn(running: bool)
      requires Valid() && LogHolds(view.written) && LogFlushed() && P.Safe(view)
      modifies this, repr, output, output.file
      ensures repr == old(repr)
      ensures output.file == old(output.file) || fresh(output.file)
      ensures LogHolds(view.written) && LogFlushed()
      ensures view == P.BackendStep(old(view), running)
      ensures Valid()
    {
      if phase.AtWrite? && index < |buffersToWrite| {
        WriteOne();
      } else {
        QuietTurn(running);
      }
    }

    method Turn(step: P.Step)
      requires Valid() && LogHolds(view.written) && LogFlushed() && P.Safe(view)
      requires step.Append? ==> |step.message| <= INT32_MAX
      modifies this, repr, output, output.file
      ensures fresh(repr - old(repr)) && old(repr) <= repr
      ensures output.file == old(output.file) || fresh(output.file)
      ensures LogHolds(view.written) && LogFlushed()
      ensures view == P.DoStep(old(view), step)
      ensures Valid()
    {
      match step
      case Append(m) =>
        P.AppendLeavesBackend(view, m);
        Append(m);
      case Backend(running) => BackendTurn(running);
    }

    /** Any interleaving of producers and backend, taken up after its first `done` steps, keeps the
        objects in step with the protocol, and none of the assertions of the source fails. */
    method Run(schedule: seq<P.Step>, done: nat)
      requires Valid() && LogHolds(view.written) && LogFlushed()
      requires done <= |schedule| && view == P.Exec(P.Init(), schedule[..done])
      requires forall i | 0 <= i < |schedule| && schedule[i].Append? :: |schedule[i].message| <= INT32_MAX
      modifies this, repr, output, output.file
      ensures Valid() && LogHolds(view.written) && LogFlushed()
      ensures view == P.Exec(P.Init(), schedule)
      decreases |schedule| - done
    {
      if done < |schedule| {
        P.AlwaysSafe(schedule[..done]);
        P.OneMoreStep(schedule, done);
        Turn(schedule[done]);
        Run(schedule, done + 1);
      } else {
        assert schedule[..done] == schedule;
      }
    }

    /** End to end: with no stalled write and nothing lost to the overload check, the bytes in the log
        files, then those still to be written, then those in the producers' buffers are the bytes of
        the accepted messages in lock order. */
    lemma LogIsTheAcceptedStream(schedule: seq<P.Step>)
      requires LogHolds(view.written) && output.intact
      requires view == P.Exec(P.Init(), schedule) && P.LostOnlyEmpty(view.batches)
      ensures output.Stream() + Concat(P.Unwritten(view)) + Concat(P.Pending(view)) == Concat(P.Accepted(schedule))
      ensures output.Stream() <= Concat(P.Accepted(schedule))
    {
      P.LossIff(schedule);
      output.FilesHoldEverything();
      ConcatAdd(view.written + P.Unwritten(view), P.Pending(view));
      ConcatAdd(view.written, P.Unwritten(view));
    }

    /** At the head of the loop and after its end, nothing of the log is left in the C library. */
    lemma RoundEndsFlushed()
      requires LogHolds(view.written) && LogFlushed() && output.intact
      requires phase.AtLoopHead? || phase.Exited?
      ensures output.file.flushed == |output.file.contents|
    {
      output.NothingUnflushed();
    }
  }
}
