/**
 The double-buffered logger as a step machine: any number of producers call `append`
 while one backend thread goes round its loop.  A schedule is an arbitrary interleaving
 of producer appends and backend steps; every schedule is a run.
 */
module LogProtocol {
  import opened Sequences

  type Message = seq<char>
  /** The messages held by one buffer, oldest first. */
  type Chunk = seq<Message>

  const LARGE_BUFFER: nat := 4000 * 1000
  const MAX_BATCH: nat := 25
  const KEPT_BUFFERS: nat := 2

  /** Where the backend thread stands inside its loop. */
  datatype Phase =
    | AtLoopHead | AtSwap | AtDrop | AtWrite | AtTrim
    | AtRecycle1 | AtRecycle2 | AtClear | Exited

  datatype State = State(
    current: Chunk,           // messages in currentBuffer_
    next: bool,               // nextBuffer_ is set (it is always empty)
    full: seq<Chunk>,         // buffers_
    phase: Phase,
    spare1: bool,             // newBuffer1 is set (and empty)
    spare2: bool,             // newBuffer2 is set (and empty)
    batch: seq<Chunk>,        // buffersToWrite
    index: nat,               // loop counter of the write loop
    written: seq<Message>,    // handed to the log file so far
    batches: seq<seq<Chunk>>  // history: every batch ever swapped out
  )

  datatype Step = Append(message: Message) | Backend(running: bool)

  function Init(): State {
    State([], true, [], AtLoopHead, true, true, [], 0, [], [])
  }

  /** Free bytes of a buffer holding `chunk`. */
  function Avail(chunk: Chunk): int { LARGE_BUFFER - |Concat(chunk)| }

  function AppendStep(s: State, m: Message): State {
    if Avail(s.current) > |m| then
      s.(current := s.current + [m])
    else
      s.(full := s.full + [s.current],
         current := if LARGE_BUFFER > |m| then [m] else [],
         next := false)
  }

  /** What the overload check leaves of a batch, and what it throws away. */
  function Kept(b: seq<Chunk>): seq<Chunk> {
    if |b| > MAX_BATCH then b[..KEPT_BUFFERS] else b
  }

  function Lost(b: seq<Chunk>): seq<Chunk> {
    if |b| > MAX_BATCH then b[KEPT_BUFFERS..] else []
  }

  function SwapStep(s: State): State {
    var b := s.full + [s.current];
    s.(full := [], current := [], batch := b, batches := s.batches + [b],
       spare1 := false, next := true, spare2 := s.spare2 && s.next, phase := AtDrop)
  }

  function WriteStep(s: State): State {
    if s.index < |s.batch| then
      s.(written := s.written + s.batch[s.index], index := s.index + 1)
    else
      s.(phase := AtTrim)
  }

  /** All but the last element: what `back` and `pop_back` leave behind. */
  function ButLast<T>(xs: seq<T>): seq<T> {
    if xs == [] then [] else xs[..|xs| - 1]
  }

  function HeadStep(s: State, running: bool): State {
    s.(phase := if running then AtSwap else Exited)
  }

  function DropStep(s: State): State {
    s.(batch := Kept(s.batch), index := 0, phase := AtWrite)
  }

  function TrimStep(s: State): State {
    s.(batch := if |s.batch| > KEPT_BUFFERS then s.batch[..KEPT_BUFFERS] else s.batch, phase := AtRecycle1)
  }

  function Recycle1Step(s: State): State {
    if s.spare1 then s.(phase := AtRecycle2)
    else s.(spare1 := true, batch := ButLast(s.batch), phase := AtRecycle2)
  }

  function Recycle2Step(s: State): State {
    if s.spare2 then s.(phase := AtClear)
    else s.(spare2 := true, batch := ButLast(s.batch), phase := AtClear)
  }

  function ClearStep(s: State): State {
    s.(batch := [], phase := AtLoopHead)
  }

  function BackendStep(s: State, running: bool): State {
    match s.phase
    case AtLoopHead => HeadStep(s, running)
    case AtSwap => SwapStep(s)
    case AtDrop => DropStep(s)
    case AtWrite => WriteStep(s)
    case AtTrim => TrimStep(s)
    case AtRecycle1 => Recycle1Step(s)
    case AtRecycle2 => Recycle2Step(s)
    case AtClear => ClearStep(s)
    case Exited => s
  }

  function DoStep(s: State, step: Step): State {
    match step
    case Append(m) => AppendStep(s, m)
    case Backend(running) => BackendStep(s, running)
  }

  function Exec(s: State, schedule: seq<Step>): State {
    Fold(DoStep, s, schedule)
  }

  // ---------------------------------------------------------------- observations

  /** The messages of a schedule that `append` stores: those shorter than a whole buffer. */
  function Accepted(schedule: seq<Step>): seq<Message> {
    if schedule == [] then []
    else Accepted(schedule[..|schedule| - 1]) + Stored(schedule[|schedule| - 1])
  }

  function Stored(step: Step): seq<Message> {
    if step.Append? && |step.message| < LARGE_BUFFER then [step.message] else []
  }

  /** Messages of all batches, of what each batch keeps and of what each batch loses. */
  function AllOf(bs: seq<seq<Chunk>>): seq<Message> {
    if bs == [] then [] else AllOf(bs[..|bs| - 1]) + Concat(bs[|bs| - 1])
  }

  function KeptOf(bs: seq<seq<Chunk>>): seq<Message> {
    if bs == [] then [] else KeptOf(bs[..|bs| - 1]) + Concat(Kept(bs[|bs| - 1]))
  }

  function LostOf(bs: seq<seq<Chunk>>): seq<Message> {
    if bs == [] then [] else LostOf(bs[..|bs| - 1]) + Concat(Lost(bs[|bs| - 1]))
  }

  /** The part of the current batch the backend has still to write. */
  function Unwritten(s: State): seq<Message> {
    if s.phase.AtDrop? then Concat(Kept(s.batch))
    else if s.phase.AtWrite? && s.index <= |s.batch| then Concat(s.batch[s.index..])
    else []
  }

  /** Messages the producers have handed over since the last swap. */
  function Pending(s: State): seq<Message> { Concat(s.full) + s.current }

  /** The source's own assertions, each at the program point where it stands. */
  predicate AssertionsHold(s: State) {
    && (s.phase.AtSwap? ==> s.spare1 && s.spare2 && s.batch == [])
    && (s.phase.AtDrop? ==> s.batch != [])
    && (s.phase.AtRecycle1? && !s.spare1 ==> s.batch != [])
    && (s.phase.AtRecycle2? && !s.spare2 ==> s.batch != [])
  }

  // ---------------------------------------------------------------- invariant

  predicate Fits(chunk: Chunk) { |Concat(chunk)| < LARGE_BUFFER }

  predicate AllFit(chunks: seq<Chunk>) { forall i | 0 <= i < |chunks| :: Fits(chunks[i]) }

  /** The last batch has been swapped out; `done` says how much of it has been written. */
  predicate Writing(s: State, done: seq<Message>) {
    && s.batches != []
    && s.written == KeptOf(s.batches[..|s.batches| - 1]) + done
  }

  /** The buffers still at hand are the first ones of the batch that has just been written. */
  predicate FromLastBatch(s: State) {
    s.batches != [] && s.batch <= Kept(s.batches[|s.batches| - 1])
  }

  predicate PhaseInv(s: State) {
    match s.phase
    case AtLoopHead => s.spare1 && s.spare2 && s.batch == [] && s.written == KeptOf(s.batches)
    case AtSwap => s.spare1 && s.spare2 && s.batch == [] && s.written == KeptOf(s.batches)
    case Exited => s.spare1 && s.spare2 && s.batch == [] && s.written == KeptOf(s.batches)
    case AtDrop =>
      && !s.spare1 && s.batch != [] && (!s.spare2 ==> |s.batch| >= 2)
      && Writing(s, []) && s.batch == s.batches[|s.batches| - 1]
    case AtWrite =>
      && !s.spare1 && s.batch != [] && (!s.spare2 ==> |s.batch| >= 2)
      && s.index <= |s.batch|
      && Writing(s, Concat(s.batch[..s.index])) && s.batch == Kept(s.batches[|s.batches| - 1])
    case AtTrim =>
      && !s.spare1 && s.batch != [] && (!s.spare2 ==> |s.batch| >= 2)
      && s.written == KeptOf(s.batches) && FromLastBatch(s)
    case AtRecycle1 =>
      && !s.spare1 && 1 <= |s.batch| <= 2 && (!s.spare2 ==> |s.batch| == 2)
      && s.written == KeptOf(s.batches) && FromLastBatch(s)
    case AtRecycle2 =>
      && s.spare1 && |s.batch| <= 1 && (!s.spare2 ==> |s.batch| == 1)
      && s.written == KeptOf(s.batches) && FromLastBatch(s)
    case AtClear => s.spare1 && s.spare2 && s.written == KeptOf(s.batches)
  }

  predicate Inv(s: State) {
    && Fits(s.current) && AllFit(s.full) && AllFit(s.batch)
    && (!s.next ==> s.full != [])
    && PhaseInv(s)
  }

  /** Where the backend stands does not depend on the producers' buffers. */
  lemma PhaseInvIgnoresProducers(s: State, current: Chunk, next: bool, full: seq<Chunk>)
    requires PhaseInv(s)
    ensures PhaseInv(s.(current := current, next := next, full := full))
  {
  }

  /** Appending never touches what belongs to the backend. */
  lemma AppendLeavesBackend(s: State, m: Message)
    ensures var t := AppendStep(s, m);
            t == s.(current := t.current, next := t.next, full := t.full)
  {
  }

  lemma AppendKeepsInv(s: State, m: Message)
    requires Inv(s)
    ensures Inv(AppendStep(s, m))
  {
    var t := AppendStep(s, m);
    PhaseInvIgnoresProducers(s, t.current, t.next, t.full);
    if Avail(s.current) > |m| {
      ConcatSnoc(s.current, m);
    } else {
      assert Concat<char>([]) == [] && Concat([m]) == m + Concat<char>([]);
    }
  }

  lemma SwapKeepsInv(s: State)
    requires Inv(s) && s.phase.AtSwap?
    ensures Inv(SwapStep(s))
  {
    var t := SwapStep(s);
    assert t.batches[..|t.batches| - 1] == s.batches;
    assert s.written == KeptOf(s.batches) + [];
    assert Concat<char>([]) == [];
  }

  lemma DropKeepsInv(s: State)
    requires Inv(s) && s.phase.AtDrop?
    ensures Inv(DropStep(s))
  {
    assert Kept(s.batch)[..0] == [];
    assert Concat<Message>([]) == [];
  }

  lemma WriteOneKeepsInv(s: State)
    requires Inv(s) && s.phase.AtWrite? && s.index < |s.batch|
    ensures Inv(WriteStep(s))
  {
    var head := KeptOf(s.batches[..|s.batches| - 1]);
    var t := WriteStep(s);
    OneMorePart(head, s.batch, s.index);
    assert t == s.(written := s.written + s.batch[s.index], index := s.index + 1);
    assert t.written == head + Concat(t.batch[..t.index]);
  }

  lemma OneMorePart<T>(head: seq<T>, parts: seq<seq<T>>, i: nat)
    requires i < |parts|
    ensures head + Concat(parts[..i]) + parts[i] == head + Concat(parts[..i + 1])
  {
    ConcatStep(parts, i);
  }

  lemma WriteEndKeepsInv(s: State)
    requires Inv(s) && s.phase.AtWrite? && s.index == |s.batch|
    ensures Inv(WriteStep(s))
  {
    assert s.batch[..s.index] == s.batch;
    assert KeptOf(s.batches) == KeptOf(s.batches[..|s.batches| - 1]) + Concat(s.batch);
    assert FromLastBatch(WriteStep(s));
  }

  lemma TrimKeepsInv(s: State)
    requires Inv(s) && s.phase.AtTrim?
    ensures Inv(TrimStep(s))
  {
    assert FromLastBatch(TrimStep(s));
  }

  lemma RecycleKeepsInv(s: State)
    requires Inv(s)
    ensures s.phase.AtRecycle1? ==> Inv(Recycle1Step(s))
    ensures s.phase.AtRecycle2? ==> Inv(Recycle2Step(s))
  {
    assert s.phase.AtRecycle1? ==> FromLastBatch(Recycle1Step(s));
  }

  lemma BackendKeepsInv(s: State, running: bool)
    requires Inv(s)
    ensures Inv(BackendStep(s, running))
  {
    match s.phase
    case AtLoopHead =>
    case AtSwap => SwapKeepsInv(s);
    case AtDrop => DropKeepsInv(s);
    case AtWrite => if s.index < |s.batch| { WriteOneKeepsInv(s); } else { WriteEndKeepsInv(s); }
    case AtTrim => TrimKeepsInv(s);
    case AtRecycle1 => RecycleKeepsInv(s);
    case AtRecycle2 => RecycleKeepsInv(s);
    case AtClear =>
    case Exited =>
  }

  /** Every reachable state satisfies the invariant, whatever the interleaving. */
  lemma {:induction false} RunKeepsInv(s: State, schedule: seq<Step>)
    requires Inv(s)
    ensures Inv(Exec(s, schedule))
  {
    if schedule != [] {
      var before := schedule[..|schedule| - 1];
      RunKeepsInv(s, before);
      match schedule[|schedule| - 1]
      case Append(m) => AppendKeepsInv(Exec(s, before), m);
      case Backend(running) => BackendKeepsInv(Exec(s, before), running);
    }
  }

  /** No assertion of the backend loop can fail in any run. */
  lemma AssertionsNeverFail(schedule: seq<Step>)
    ensures AssertionsHold(Exec(Init(), schedule))
  {
    RunKeepsInv(Init(), schedule);
  }

  /** The points of a round at which nothing has been written since the last flush. */
  predicate Settled(phase: Phase) { phase.AtLoopHead? || phase.AtSwap? || phase.AtDrop? || phase.Exited? }

  // ---------------------------------------------------------------- what is recycled

  predicate OccursAt<T(==)>(whole: seq<T>, part: seq<T>, i: nat) {
    i + |part| <= |whole| && forall j | 0 <= j < |part| :: part[j] == whole[i + j]
  }

  /** Whether `part` occurs in one piece, at one of the positions up to `n`. */
  predicate OccursUpTo<T(==)>(whole: seq<T>, part: seq<T>, n: nat) {
    OccursAt(whole, part, n) || (n > 0 && OccursUpTo(whole, part, n - 1))
  }

  predicate Contains<T(==)>(whole: seq<T>, part: seq<T>) { OccursUpTo(whole, part, |whole|) }

  lemma {:induction false} OccursMeansContains<T>(whole: seq<T>, part: seq<T>, i: nat, n: nat)
    requires OccursAt(whole, part, i) && i <= n
    ensures OccursUpTo(whole, part, n)
  {
    if i < n {
      OccursMeansContains(whole, part, i, n - 1);
    }
  }

  lemma {:induction false} WhereItOccurs<T>(whole: seq<T>, part: seq<T>, n: nat) returns (i: nat)
    requires OccursUpTo(whole, part, n)
    ensures OccursAt(whole, part, i)
  {
    if OccursAt(whole, part, n) {
      i := n;
    } else {
      assert n > 0 && OccursUpTo(whole, part, n - 1);
      i := WhereItOccurs(whole, part, n - 1);
    }
  }

  /** A buffer about to be recycled has been written: its messages are in the log, in one piece. */
  predicate RecyclesWritten(s: State) {
    (s.phase.AtRecycle1? || s.phase.AtRecycle2?) && s.batch != [] ==> Contains(s.written, s.batch[|s.batch| - 1])
  }

  /** What the code relies on at every point of the backend loop. */
  predicate Safe(s: State) { AssertionsHold(s) && RecyclesWritten(s) }

  lemma MiddleIsContained<T>(x: seq<T>, y: seq<T>, z: seq<T>)
    ensures Contains(x + y + z, y)
  {
    assert OccursAt(x + y + z, y, |x|);
    OccursMeansContains(x + y + z, y, |x|, |x + y + z|);
  }

  lemma PartIsContained<T>(head: seq<T>, parts: seq<seq<T>>, i: nat)
    requires i < |parts|
    ensures Contains(head + Concat(parts), parts[i])
  {
    var before, after := Concat(parts[..i]), Concat(parts[i + 1..]);
    MiddleIsContained(head + before, parts[i], after);
    assert head + Concat(parts) == head + before + parts[i] + after by {
      assert parts == parts[..i] + parts[i..];
      ConcatAdd(parts[..i], parts[i..]);
      ConcatStep(parts, i);
      Regroup(head, before, parts[i], after);
    }
  }

  lemma Regroup<T>(a: seq<T>, b: seq<T>, c: seq<T>, d: seq<T>)
    ensures a + (b + (c + d)) == a + b + c + d
  {
  }

  /** Messages in one piece are bytes in one piece. */
  lemma ContainedBytes(whole: seq<Message>, part: seq<Message>)
    requires Contains(whole, part)
    ensures Contains(Concat(whole), Concat(part))
  {
    var i := WhereItOccurs(whole, part, |whole|);
    var x, y := whole[..i], whole[i + |part|..];
    assert whole[i..i + |part|] == part;
    assert whole == x + part + y;
    ConcatAdd(x + part, y);
    ConcatAdd(x, part);
    MiddleIsContained(Concat(x), Concat(part), Concat(y));
  }

  /** Only written buffers are recycled, and no assertion fails, in any run. */
  lemma AlwaysSafe(schedule: seq<Step>)
    ensures Safe(Exec(Init(), schedule))
  {
    var s := Exec(Init(), schedule);
    RunKeepsInv(Init(), schedule);
    if (s.phase.AtRecycle1? || s.phase.AtRecycle2?) && s.batch != [] {
      var n := |s.batches| - 1;
      var kept := Kept(s.batches[n]);
      assert s.written == KeptOf(s.batches[..n]) + Concat(kept);
      PartIsContained(KeptOf(s.batches[..n]), kept, |s.batch| - 1);
      assert kept[|s.batch| - 1] == s.batch[|s.batch| - 1];
    }
  }

  lemma OneMoreStep(schedule: seq<Step>, i: nat)
    requires i < |schedule|
    ensures Exec(Init(), schedule[..i + 1]) == DoStep(Exec(Init(), schedule[..i]), schedule[i])
  {
    FoldSnoc(DoStep, Init(), schedule[..i], schedule[i]);
    assert schedule[..i] + [schedule[i]] == schedule[..i + 1];
  }

  // ---------------------------------------------------------------- conservation

  lemma {:induction false} AcceptedSplit(first: seq<Step>, second: seq<Step>)
    ensures Accepted(first + second) == Accepted(first) + Accepted(second)
  {
    var whole := first + second;
    if second == [] {
      assert whole == first;
    } else {
      var n := |second| - 1;
      assert whole[..|whole| - 1] == first + second[..n] && whole[|whole| - 1] == second[n];
      AcceptedSplit(first, second[..n]);
      Associative(Accepted(first), Accepted(second[..n]), Stored(second[n]));
    }
  }

  lemma AppendConserves(s: State, m: Message)
    ensures Pending(AppendStep(s, m)) == Pending(s) + Stored(Append(m))
  {
    assert Concat<char>([]) == [];
    ConcatSnoc(s.full, s.current);
  }

  lemma SwapConserves(s: State)
    ensures AllOf(SwapStep(s).batches) == AllOf(s.batches) + Pending(s)
    ensures Pending(SwapStep(s)) == []
  {
    ConcatSnoc(s.full, s.current);
    assert SwapStep(s).batches[..|s.batches|] == s.batches;
  }

  /** Between swaps the backend never touches what belongs to the producers. */
  lemma BackendLeavesPending(s: State, running: bool)
    requires !s.phase.AtSwap?
    ensures var t := BackendStep(s, running);
            t.batches == s.batches && t.full == s.full && t.current == s.current
  {
  }

  lemma StepConserves(s: State, step: Step)
    ensures var t := DoStep(s, step);
            AllOf(t.batches) + Pending(t) == AllOf(s.batches) + Pending(s) + Stored(step)
  {
    var a, p, q := AllOf(s.batches), Pending(s), Stored(step);
    assert a + (p + q) == a + p + q;
    if step.Append? {
      AppendConserves(s, step.message);
      assert DoStep(s, step).batches == s.batches;
    } else if s.phase.AtSwap? {
      SwapConserves(s);
    } else {
      BackendLeavesPending(s, step.running);
    }
  }

  /** Nothing is reordered, duplicated or invented: the swapped-out batches followed by what
      is still in the producers' buffers is exactly the accepted stream, in lock order. */
  lemma {:induction false} RunConserves(s: State, schedule: seq<Step>)
    ensures var t := Exec(s, schedule);
            AllOf(t.batches) + Pending(t) == AllOf(s.batches) + Pending(s) + Accepted(schedule)
  {
    if schedule != [] {
      var n := |schedule| - 1;
      RunConserves(s, schedule[..n]);
      StepConserves(Exec(s, schedule[..n]), schedule[n]);
    }
  }

  /** Everything a batch keeps is either already written or still to be written. */
  lemma WrittenAndUnwritten(s: State)
    requires Inv(s)
    ensures s.written + Unwritten(s) == KeptOf(s.batches)
  {
    if s.phase.AtWrite? {
      PartsAndRest(KeptOf(s.batches[..|s.batches| - 1]), s.batch, s.index);
    } else if !s.phase.AtDrop? {
      assert s.written == KeptOf(s.batches);
    }
  }

  lemma PartsAndRest<T>(head: seq<T>, parts: seq<seq<T>>, i: nat)
    requires i <= |parts|
    ensures head + Concat(parts[..i]) + Concat(parts[i..]) == head + Concat(parts)
  {
    assert parts[..i] + parts[i..] == parts;
    ConcatAdd(parts[..i], parts[i..]);
    Associative(head, Concat(parts[..i]), Concat(parts[i..]));
  }

  lemma {:induction false} KeptPlusLost(bs: seq<seq<Chunk>>)
    ensures multiset(AllOf(bs)) == multiset(KeptOf(bs)) + multiset(LostOf(bs))
    ensures |AllOf(bs)| == |KeptOf(bs)| + |LostOf(bs)|
  {
    if bs != [] {
      var front, b := bs[..|bs| - 1], bs[|bs| - 1];
      KeptPlusLost(front);
      ConcatAdd(Kept(b), Lost(b));
      assert Kept(b) + Lost(b) == b;
      Interleave(AllOf(front), KeptOf(front), LostOf(front), Concat(Kept(b)), Concat(Lost(b)));
    }
  }

  lemma Interleave<T>(all: seq<T>, kept: seq<T>, lost: seq<T>, moreKept: seq<T>, moreLost: seq<T>)
    requires multiset(all) == multiset(kept) + multiset(lost)
    ensures multiset(all + (moreKept + moreLost)) == multiset(kept + moreKept) + multiset(lost + moreLost)
  {
  }

  /** Only the overload check loses messages, and it loses exactly the buffers from index 2
      on of each batch of more than 25. */
  lemma LossIsExact(schedule: seq<Step>)
    ensures var s := Exec(Init(), schedule);
            multiset(Accepted(schedule)) ==
            multiset(s.written) + multiset(Unwritten(s)) + multiset(LostOf(s.batches)) + multiset(Pending(s))
    ensures var s := Exec(Init(), schedule);
            |Accepted(schedule)| == |s.written| + |Unwritten(s)| + |LostOf(s.batches)| + |Pending(s)|
  {
    var s := Exec(Init(), schedule);
    RunKeepsInv(Init(), schedule);
    RunConserves(Init(), schedule);
    assert AllOf(Init().batches) + Pending(Init()) == [];
    assert AllOf(s.batches) + Pending(s) == Accepted(schedule);
    WrittenAndUnwritten(s);
    KeptPlusLost(s.batches);
    assert multiset(KeptOf(s.batches)) == multiset(s.written) + multiset(Unwritten(s));
  }

  predicate NoLargeBatch(s: State) {
    forall i | 0 <= i < |s.batches| :: |s.batches[i]| <= 25
  }

  predicate AllEmpty(chunks: seq<Chunk>) { forall i | 0 <= i < |chunks| :: chunks[i] == [] }

  /** A batch over 25 has nothing in its buffers from index 2 on. */
  predicate EmptyBeyond(b: seq<Chunk>) { |b| > 25 ==> forall j | 2 <= j < |b| :: b[j] == [] }

  /** So it is in every batch: the overload check threw away empty buffers only. */
  predicate LostOnlyEmpty(batches: seq<seq<Chunk>>) {
    forall i | 0 <= i < |batches| :: EmptyBeyond(batches[i])
  }

  lemma EmptyBeyondIff(b: seq<Chunk>)
    ensures EmptyBeyond(b) <==> AllEmpty(Lost(b))
  {
    if |b| > 25 && AllEmpty(Lost(b)) {
      forall j | 2 <= j < |b|
        ensures b[j] == []
      {
        assert Lost(b)[j - 2] == b[j];
      }
    }
  }

  lemma {:induction false} EmptyIff(chunks: seq<Chunk>)
    ensures Concat(chunks) == [] <==> AllEmpty(chunks)
  {
    if chunks != [] {
      EmptyIff(chunks[1..]);
      assert AllEmpty(chunks) <==> chunks[0] == [] && AllEmpty(chunks[1..]);
    }
  }

  lemma {:induction false} LostNothingIff(bs: seq<seq<Chunk>>)
    ensures LostOf(bs) == [] <==> LostOnlyEmpty(bs)
  {
    if bs != [] {
      var n := |bs| - 1;
      LostNothingIff(bs[..n]);
      EmptyIff(Lost(bs[n]));
      EmptyBeyondIff(bs[n]);
      LostOnlyEmptySnoc(bs[..n], bs[n]);
      assert bs == bs[..n] + [bs[n]];
    }
  }

  lemma LostOnlyEmptySnoc(front: seq<seq<Chunk>>, b: seq<Chunk>)
    ensures LostOnlyEmpty(front + [b]) <==> LostOnlyEmpty(front) && EmptyBeyond(b)
  {
    var bs := front + [b];
    assert bs[|front|] == b && forall i | 0 <= i < |front| :: bs[i] == front[i];
  }

  lemma {:induction false} NothingLostKeepsAll(bs: seq<seq<Chunk>>)
    requires LostOf(bs) == []
    ensures KeptOf(bs) == AllOf(bs)
  {
    if bs != [] {
      var b := bs[|bs| - 1];
      NothingLostKeepsAll(bs[..|bs| - 1]);
      ConcatAdd(Kept(b), Lost(b));
      assert Kept(b) + Lost(b) == b;
    }
  }

  /** For any schedule: what has been written, then the rest of the current batch, then the
      producers' buffers is the accepted stream if and only if every buffer from index 2 on of every
      batch over 25 was empty. Otherwise messages are missing. */
  lemma LossIff(schedule: seq<Step>)
    ensures var s := Exec(Init(), schedule);
            s.written + Unwritten(s) + Pending(s) == Accepted(schedule) <==> LostOnlyEmpty(s.batches)
    ensures var s := Exec(Init(), schedule);
            |s.written| + |Unwritten(s)| + |Pending(s)| == |Accepted(schedule)| <==> LostOnlyEmpty(s.batches)
  {
    var s := Exec(Init(), schedule);
    RunKeepsInv(Init(), schedule);
    RunConserves(Init(), schedule);
    assert AllOf(Init().batches) + Pending(Init()) == [];
    WrittenAndUnwritten(s);
    LossIsExact(schedule);
    LostNothingIff(s.batches);
    if LostOf(s.batches) == [] {
      NothingLostKeepsAll(s.batches);
    }
  }

  /** While no batch exceeds 25 buffers nothing is lost, and the log is a prefix of the accepted
      stream. */
  lemma StreamConservation(schedule: seq<Step>)
    requires NoLargeBatch(Exec(Init(), schedule))
    ensures var s := Exec(Init(), schedule);
            s.written + Unwritten(s) + Pending(s) == Accepted(schedule)
    ensures Exec(Init(), schedule).written <= Accepted(schedule)
  {
    LossIff(schedule);
  }

  /** How many steps a schedule takes up to its last swap, that one included; 0 without a swap. */
  function LastSwap(schedule: seq<Step>): (k: nat)
    ensures k <= |schedule|
  {
    if schedule == [] then 0
    else
      var n := |schedule| - 1;
      if schedule[n].Backend? && Exec(Init(), schedule[..n]).phase.AtSwap? then n + 1 else LastSwap(schedule[..n])
  }

  /** The first `k` steps of the schedule brought in what has been swapped out, the others what is
      still in the producers' buffers. */
  predicate Cut(schedule: seq<Step>, k: nat) {
    var s := Exec(Init(), schedule);
    k <= |schedule| && AllOf(s.batches) == Accepted(schedule[..k]) && Pending(s) == Accepted(schedule[k..])
  }

  /** The last swap cuts the accepted stream: what was accepted before it has been swapped out, what
      came after it is still in the producers' buffers. */
  lemma {:induction false} LastSwapCuts(schedule: seq<Step>)
    ensures Cut(schedule, LastSwap(schedule))
  {
    if schedule == [] {
      NothingCut();
    } else {
      var front, last := schedule[..|schedule| - 1], schedule[|schedule| - 1];
      assert front + [last] == schedule;
      LastSwapCuts(front);
      OneMoreCut(front, last);
    }
  }

  lemma NothingCut()
    ensures Cut([], LastSwap([]))
  {
    assert Concat<Message>([]) == [];
  }

  lemma OneMoreCut(front: seq<Step>, step: Step)
    requires Cut(front, LastSwap(front))
    ensures Cut(front + [step], LastSwap(front + [step]))
  {
    var all := front + [step];
    FoldSnoc(DoStep, Init(), front, step);
    SnocSplits(front, step, LastSwap(front));
    if step.Backend? && Exec(Init(), front).phase.AtSwap? {
      CutBySwap(front, step);
    } else {
      CutLater(Exec(Init(), front), front[LastSwap(front)..], step);
    }
  }

  lemma SnocSplits<T>(front: seq<T>, x: T, k: nat)
    requires k <= |front|
    ensures var all := front + [x];
            && all[..|front|] == front && all[..|all|] == all && all[|all|..] == []
            && front[..k] == all[..k] && front[k..] + [x] == all[k..]
  {
  }

  lemma CutBySwap(front: seq<Step>, step: Step)
    requires step.Backend? && Exec(Init(), front).phase.AtSwap?
    ensures var t := SwapStep(Exec(Init(), front));
            AllOf(t.batches) == Accepted(front + [step]) && Pending(t) == []
  {
    var s := Exec(Init(), front);
    RunConserves(Init(), front);
    assert AllOf(Init().batches) + Pending(Init()) == [];
    SwapConserves(s);
    assert (front + [step])[..|front|] == front;
  }

  lemma CutLater(s: State, since: seq<Step>, step: Step)
    requires Pending(s) == Accepted(since) && !(step.Backend? && s.phase.AtSwap?)
    ensures var t := DoStep(s, step);
            AllOf(t.batches) == AllOf(s.batches) && Pending(t) == Accepted(since + [step])
  {
    assert (since + [step])[..|since|] == since;
    match step
    case Append(m) => AppendConserves(s, m);
    case Backend(running) => BackendLeavesPending(s, running);
  }

  /** At thread exit, whatever the run: the log holds what every batch kept, and the only messages
      never swapped out are those appended after the last swap. */
  lemma ExitMissesOnlyTheTail(schedule: seq<Step>)
    requires Exec(Init(), schedule).phase.Exited?
    ensures var s, k := Exec(Init(), schedule), LastSwap(schedule);
            && s.written == KeptOf(s.batches)
            && AllOf(s.batches) == Accepted(schedule[..k])
            && Pending(s) == Accepted(schedule[k..])
  {
    RunKeepsInv(Init(), schedule);
    LastSwapCuts(schedule);
  }

  // ---------------------------------------------------------------- when loss occurs

  /** No message of the schedule is as long as a whole buffer. */
  predicate NoOversize(schedule: seq<Step>) {
    forall i | 0 <= i < |schedule| && schedule[i].Append? :: |schedule[i].message| < LARGE_BUFFER
  }

  predicate NoneEmpty(chunks: seq<Chunk>) { forall i | 0 <= i < |chunks| :: chunks[i] != [] }

  /** Only the buffer swapped out of `currentBuffer_` can be empty, and only when nothing else
      was queued in front of it. */
  predicate Filled(s: State) {
    && NoneEmpty(s.full)
    && (s.full != [] ==> s.current != [])
    && forall i | 0 <= i < |s.batches| && |s.batches[i]| > 1 :: NoneEmpty(s.batches[i])
  }

  lemma StepKeepsFilled(s: State, step: Step)
    requires Filled(s) && (step.Append? ==> |step.message| < LARGE_BUFFER)
    ensures Filled(DoStep(s, step))
  {
    if step.Append? {
      assert s.current == [] ==> Avail(s.current) == LARGE_BUFFER;
    } else if !s.phase.AtSwap? {
      BackendLeavesPending(s, step.running);
    }
  }

  lemma {:induction false} RunKeepsFilled(schedule: seq<Step>)
    requires NoOversize(schedule)
    ensures Filled(Exec(Init(), schedule))
  {
    if schedule != [] {
      var n := |schedule| - 1;
      RunKeepsFilled(schedule[..n]);
      StepKeepsFilled(Exec(Init(), schedule[..n]), schedule[n]);
    }
  }

  /** When no message is as long as a whole buffer, messages are lost exactly when some batch exceeds
      25 buffers. */
  lemma LargeBatchIff(schedule: seq<Step>)
    requires NoOversize(schedule)
    ensures var s := Exec(Init(), schedule);
            s.written + Unwritten(s) + Pending(s) == Accepted(schedule) <==> NoLargeBatch(s)
  {
    var s := Exec(Init(), schedule);
    RunKeepsFilled(schedule);
    LossIff(schedule);
    forall i | 0 <= i < |s.batches|
      ensures EmptyBeyond(s.batches[i]) <==> |s.batches[i]| <= 25
    {
      assert |s.batches[i]| > 25 ==> s.batches[i][2] != [];
    }
  }

  // ---------------------------------------------------------------- how buffers fill up

  /** A message that fits joins the current buffer and moves nothing; any other queues the buffer. */
  lemma QueuesOnlyWhenFull(s: State, m: Message)
    ensures var t, used := AppendStep(s, m), |Concat(s.current)|;
            && (used + |m| < LARGE_BUFFER ==> t == s.(current := s.current + [m]))
            && (used + |m| >= LARGE_BUFFER ==> t.full == s.full + [s.current] && !t.next && |t.current| <= 1)
  {
  }

  /** All buffers there are, on both sides. */
  function Buffers(s: State): nat {
    |s.full| + 1 + |s.batch| + (if s.next then 1 else 0) + (if s.spare1 then 1 else 0) + (if s.spare2 then 1 else 0)
  }

  /** A buffer is allocated exactly when one is queued and there is no next one, and let go of only by the
      overload check, the trimming and the clearing. */
  lemma BuffersAreMoved(s: State, step: Step)
    requires Inv(s)
    ensures step.Append? ==>
              Buffers(DoStep(s, step)) == Buffers(s) + if Avail(s.current) <= |step.message| && !s.next then 1 else 0
    ensures step.Backend? && !s.phase.AtDrop? && !s.phase.AtTrim? && !s.phase.AtClear? ==>
              Buffers(DoStep(s, step)) == Buffers(s)
  {
  }

  /** The first message of buffer `i + 1` did not fit into buffer `i`. */
  predicate Crowded(bs: seq<Chunk>, i: nat) {
    i + 1 < |bs| ==> bs[i + 1] != [] && |Concat(bs[i])| + |bs[i + 1][0]| >= LARGE_BUFFER
  }

  predicate Packed(bs: seq<Chunk>) { forall i | 0 <= i < |bs| :: Crowded(bs, i) }

  predicate AllPacked(s: State) {
    Packed(s.full + [s.current]) && forall i | 0 <= i < |s.batches| :: Packed(s.batches[i])
  }

  lemma AppendKeepsPacked(s: State, m: Message)
    requires Packed(s.full + [s.current]) && |m| < LARGE_BUFFER
    ensures var t := AppendStep(s, m);
            Packed(t.full + [t.current])
  {
    var t, before, n := AppendStep(s, m), s.full + [s.current], |s.full|;
    var after := t.full + [t.current];
    forall i | 0 <= i < |after|
      ensures Crowded(after, i)
    {
      assert i <= n ==> Crowded(before, i);
      if t.full == s.full && i + 1 == n {
        assert before[n] == s.current && after[n] == s.current + [m];
      }
    }
  }

  /** In any run without oversize messages no buffer is left before the next message no longer
      fits into it. */
  lemma {:induction false} RunKeepsPacked(schedule: seq<Step>)
    requires NoOversize(schedule)
    ensures AllPacked(Exec(Init(), schedule))
  {
    if schedule != [] {
      var n := |schedule| - 1;
      RunKeepsPacked(schedule[..n]);
      var s, step := Exec(Init(), schedule[..n]), schedule[n];
      if step.Append? {
        AppendKeepsPacked(s, step.message);
      } else if !s.phase.AtSwap? {
        BackendLeavesPending(s, step.running);
      }
    }
  }

  /** How many bytes some buffers hold together. */
  function Bytes(bs: seq<Chunk>): nat { |Concat(Concat(bs))| }

  lemma BytesSnoc(bs: seq<Chunk>, c: Chunk)
    ensures Bytes(bs + [c]) == Bytes(bs) + |Concat(c)|
  {
    ConcatSnoc(bs, c);
    ConcatAdd(Concat(bs), c);
  }

  /** Two neighbours together hold a whole buffer's worth. */
  lemma {:induction false} PackedBytes(bs: seq<Chunk>, pairs: nat)
    requires Packed(bs) && 2 * pairs <= |bs|
    ensures Bytes(bs) >= pairs * LARGE_BUFFER
  {
    if pairs > 0 {
      var n := |bs| - 2;
      LastTwoBytes(bs, n);
      assert forall i | 0 <= i < n :: Crowded(bs, i) ==> Crowded(bs[..n], i);
      PackedBytes(bs[..n], pairs - 1);
    }
  }

  lemma LastTwoBytes(bs: seq<Chunk>, n: nat)
    requires Packed(bs) && |bs| == n + 2
    ensures Bytes(bs) >= Bytes(bs[..n]) + LARGE_BUFFER
  {
    BytesSnoc(bs[..n], bs[n]);
    BytesSnoc(bs[..n + 1], bs[n + 1]);
    assert bs[..n + 1] == bs[..n] + [bs[n]] && bs == bs[..n + 1] + [bs[n + 1]];
    assert Crowded(bs, n);
    HoldsItsFirst(bs[n + 1]);
  }

  lemma HoldsItsFirst(c: Chunk)
    requires c != []
    ensures |Concat(c)| >= |c[0]|
  {
  }

  /** The queue grows only with the bytes accepted since the last swap: half a buffer each. */
  lemma QueueNeedsBytes(schedule: seq<Step>)
    requires NoOversize(schedule)
    ensures var buffers := |Exec(Init(), schedule).full| + 1;
            |Concat(Accepted(schedule[LastSwap(schedule)..]))| >= buffers / 2 * LARGE_BUFFER
  {
    var s := Exec(Init(), schedule);
    RunKeepsPacked(schedule);
    PackedBytes(s.full + [s.current], (|s.full| + 1) / 2);
    LastSwapCuts(schedule);
    ConcatSnoc(s.full, s.current);
  }

  /** Messages are lost only after 52 million bytes between two swaps. */
  lemma LossNeedsBytes(schedule: seq<Step>)
    requires NoOversize(schedule)
    ensures var s := Exec(Init(), schedule);
            s.written + Unwritten(s) + Pending(s) != Accepted(schedule) ==>
              exists i :: 0 <= i < |s.batches| && |s.batches[i]| > 25 && Bytes(s.batches[i]) >= 52_000_000
  {
    var s := Exec(Init(), schedule);
    if s.written + Unwritten(s) + Pending(s) != Accepted(schedule) {
      LargeBatchIff(schedule);
      var i :| 0 <= i < |s.batches| && |s.batches[i]| > 25;
      RunKeepsPacked(schedule);
      ManyBytes(s.batches[i]);
    }
  }

  lemma ManyBytes(b: seq<Chunk>)
    requires Packed(b) && |b| > 25
    ensures Bytes(b) >= 52_000_000
  {
    PackedBytes(b, 13);
  }

  /** Messages of which no two in a row fit into one buffer. */
  predicate Bulky(ms: seq<Message>) {
    && (forall i | 0 <= i < |ms| :: |ms[i]| < LARGE_BUFFER)
    && forall i, j | 0 <= i < |ms| && j == i + 1 < |ms| :: |ms[i]| + |ms[j]| >= LARGE_BUFFER
  }

  function Appends(ms: seq<Message>): (schedule: seq<Step>)
    ensures |schedule| == |ms| && forall i | 0 <= i < |ms| :: schedule[i] == Append(ms[i])
  {
    if ms == [] then [] else Appends(ms[..|ms| - 1]) + [Append(ms[|ms| - 1])]
  }

  /** Each message in a buffer of its own. */
  function Singles(ms: seq<Message>): (chunks: seq<Chunk>)
    ensures |chunks| == |ms| && forall i | 0 <= i < |ms| :: chunks[i] == [ms[i]]
  {
    if ms == [] then [] else Singles(ms[..|ms| - 1]) + [[ms[|ms| - 1]]]
  }

  lemma {:induction false} SinglesConcat(ms: seq<Message>, chunks: seq<Chunk>)
    requires |chunks| == |ms| && forall i | 0 <= i < |ms| :: chunks[i] == [ms[i]]
    ensures Concat(chunks) == ms
  {
    if ms == [] {
      assert Concat<Message>([]) == [];
    } else {
      var n := |ms| - 1;
      SinglesConcat(ms[..n], chunks[..n]);
      ConcatSnoc(chunks[..n], [ms[n]]);
      assert chunks == chunks[..n] + [[ms[n]]];
    }
  }

  lemma {:induction false} AppendsAccepted(ms: seq<Message>)
    requires forall i | 0 <= i < |ms| :: |ms[i]| < LARGE_BUFFER
    ensures Accepted(Appends(ms)) == ms
  {
    if ms != [] {
      var front := ms[..|ms| - 1];
      AppendsAccepted(front);
      assert Appends(ms)[..|front|] == Appends(front);
    }
  }

  /** A message that no longer fits takes the next buffer, alone. */
  lemma TakesNextBuffer(s: State, last: Message, m: Message)
    requires s.current == [last] && |last| + |m| >= LARGE_BUFFER && |m| < LARGE_BUFFER
    ensures AppendStep(s, m) == s.(full := s.full + [[last]], current := [m], next := false)
  {
    assert Concat([last]) == last + Concat<char>([]);
  }

  lemma {:induction false} BulkyFill(ms: seq<Message>)
    requires Bulky(ms) && ms != []
    ensures var s := Exec(Init(), Appends(ms));
            && s.full + [s.current] == Singles(ms)
            && s.phase == AtLoopHead && s.batches == [] && s.written == []
  {
    var front, m := ms[..|ms| - 1], ms[|ms| - 1];
    var s := Exec(Init(), Appends(front));
    FoldSnoc(DoStep, Init(), Appends(front), Append(m));
    if front == [] {
      assert Concat<char>([]) == [];
      assert AppendStep(s, m) == s.(current := [] + [m]);
      assert [] + [m] == [m] && [] + [[m]] == [[m]];
    } else {
      BulkyFill(front);
      var last := ms[|ms| - 2];
      assert s.current == (s.full + [s.current])[|front| - 1] == [last];
      TakesNextBuffer(s, last, m);
    }
  }

  /** The loss is real, and 25 is where it starts: when messages of which no two in a row fit into one
      buffer are swapped out at once, all are to be written if there are up to 25 of them, and from 26
      on the first two only. */
  lemma OverloadIff(ms: seq<Message>)
    requires Bulky(ms) && ms != []
    ensures var schedule := Appends(ms) + [Backend(true), Backend(true)];
            var s := Exec(Init(), schedule);
            && Accepted(schedule) == ms && s.batches == [Singles(ms)]
            && s.written == [] && Pending(s) == []
            && Unwritten(s) == if |ms| <= 25 then ms else ms[..2]
  {
    var s := Exec(Init(), Appends(ms));
    BulkyFill(ms);
    TwoTurns(s, Appends(ms));
    SwapConserves(HeadStep(s, true));
    SinglesKept(ms);
    BulkyAccepted(ms);
  }

  lemma SinglesKept(ms: seq<Message>)
    ensures Concat(Kept(Singles(ms))) == if |ms| <= 25 then ms else ms[..2]
  {
    SinglesConcat(if |ms| <= 25 then ms else ms[..2], Kept(Singles(ms)));
  }

  lemma BulkyAccepted(ms: seq<Message>)
    requires Bulky(ms)
    ensures Accepted(Appends(ms) + [Backend(true), Backend(true)]) == ms
  {
    var turns := [Backend(true), Backend(true)];
    AppendsAccepted(ms);
    AcceptedSplit(Appends(ms), turns);
    assert turns[..1] == [Backend(true)];
    assert Accepted(turns) == [];
  }

  /** The bound of `LossNeedsBytes` is met: when each two in a row make up exactly one buffer's worth,
      26 of them are 52 million bytes. */
  lemma {:induction false} BoundIsMet(ms: seq<Message>)
    requires |ms| % 2 == 0
    requires forall i, j | 0 <= i < |ms| && j == i + 1 < |ms| :: |ms[i]| + |ms[j]| == LARGE_BUFFER
    ensures |Concat(ms)| == |ms| / 2 * LARGE_BUFFER
    ensures |ms| == 26 ==> |Concat(ms)| == 52_000_000
  {
    if ms == [] {
      assert Concat<char>([]) == [];
    } else {
      var n := |ms| - 2;
      BoundIsMet(ms[..n]);
      assert ms == ms[..n] + [ms[n]] + [ms[n + 1]];
      ConcatSnoc(ms[..n], ms[n]);
      ConcatSnoc(ms[..n] + [ms[n]], ms[n + 1]);
    }
  }

  lemma TwoTurns(s: State, fill: seq<Step>)
    requires s == Exec(Init(), fill) && s.phase.AtLoopHead?
    ensures Exec(Init(), fill + [Backend(true), Backend(true)]) == SwapStep(HeadStep(s, true))
  {
    var one := [Backend(true)];
    assert [Backend(true), Backend(true)][..1] == one && one[..0] == [];
    FoldSplit(DoStep, Init(), fill, [Backend(true), Backend(true)]);
    assert Exec(s, one) == HeadStep(s, true);
  }

  /** A message shorter than a whole buffer is always stored, whole, in one buffer; a longer
      one is never stored. */
  lemma MessageIsAtomic(s: State, m: Message)
    ensures var t := AppendStep(s, m);
            if |m| < LARGE_BUFFER then t.current != [] && t.current[|t.current| - 1] == m
            else (Avail(s.current) <= |m| && t.current == [] && t.full == s.full + [s.current])
  {
    assert Avail(s.current) <= LARGE_BUFFER;
  }

  // ---------------------------------------------------------------- rounds and the exit

  predicate ExitsAt(schedule: seq<Step>, k: nat) {
    k < |schedule| && schedule[k] == Backend(false) && Exec(Init(), schedule[..k]).phase.AtLoopHead?
  }

  /** The backend has left its loop if and only if at some time it read the running flag as false at
      the head of the loop. */
  lemma {:induction false} ExitIff(schedule: seq<Step>)
    ensures Exec(Init(), schedule).phase.Exited? <==> exists k :: ExitsAt(schedule, k)
  {
    if schedule != [] {
      var n := |schedule| - 1;
      var front := schedule[..n];
      ExitIff(front);
      forall k | 0 <= k < n
        ensures ExitsAt(schedule, k) <==> ExitsAt(front, k)
      {
        assert schedule[..k] == front[..k];
      }
      LeavesAtHeadOnly(Exec(Init(), front), schedule[n]);
      assert ExitsAt(schedule, n) <==> schedule[n] == Backend(false) && Exec(Init(), front).phase.AtLoopHead?;
    }
  }

  lemma LeavesAtHeadOnly(s: State, step: Step)
    ensures DoStep(s, step).phase.Exited? <==> s.phase.Exited? || (s.phase.AtLoopHead? && step == Backend(false))
  {
  }

  /** `n` backend phases in a row, told to go on. */
  function Turns(n: nat): seq<Step> {
    if n == 0 then [] else Turns(n - 1) + [Backend(true)]
  }

  lemma OneMoreTurn(s: State, n: nat)
    requires n > 0
    ensures Exec(s, Turns(n)) == BackendStep(Exec(s, Turns(n - 1)), true)
  {
    FoldSnoc(DoStep, s, Turns(n - 1), Backend(true));
  }

  lemma {:induction false} WriteTurns(s: State, k: nat)
    requires s.phase.AtDrop? && k <= |Kept(s.batch)|
    ensures var t := Exec(s, Turns(k + 1));
            t == DropStep(s).(written := t.written, index := k)
  {
    OneMoreTurn(s, k + 1);
    if k > 0 {
      WriteTurns(s, k - 1);
      WriteOneTurn(Exec(s, Turns(k)));
    }
  }

  lemma WriteOneTurn(s: State)
    requires s.phase.AtWrite? && s.index < |s.batch|
    ensures var t := BackendStep(s, true);
            t == s.(written := t.written, index := s.index + 1)
  {
  }

  /** From the trimming to the head of the loop it takes four phases. */
  lemma LastTurns(s: State)
    requires s.phase.AtWrite? && s.index == |s.batch|
    ensures var t := Exec(s, Turns(5));
            t.phase.AtLoopHead? && t.batches == s.batches && Pending(t) == Pending(s)
  {
    OneMoreTurn(s, 1);
    OneMoreTurn(s, 2);
    OneMoreTurn(s, 3);
    OneMoreTurn(s, 4);
    OneMoreTurn(s, 5);
  }

  lemma {:induction false} TurnsAdd(a: nat, b: nat)
    ensures Turns(a + b) == Turns(a) + Turns(b)
  {
    if b > 0 {
      TurnsAdd(a, b - 1);
    }
  }

  /** The first phases of a round, up to the end of the writing. */
  lemma FirstTurns(s: State)
    requires s.phase.AtLoopHead?
    ensures var b := s.full + [s.current];
            var t := Exec(s, Turns(|Kept(b)| + 3));
            && t.phase.AtWrite? && t.index == |t.batch|
            && t.batches == s.batches + [b] && Pending(t) == []
  {
    var b := s.full + [s.current];
    var k := |Kept(b)|;
    OneMoreTurn(s, 1);
    OneMoreTurn(s, 2);
    var u := SwapStep(HeadStep(s, true));
    assert Exec(s, Turns(2)) == u;
    SwapConserves(HeadStep(s, true));
    WriteTurns(u, k);
    TurnsAdd(2, k + 1);
    FoldSplit(DoStep, s, Turns(2), Turns(k + 1));
  }

  lemma WholeRound(s: State)
    requires s.phase.AtLoopHead?
    ensures var b := s.full + [s.current];
            var t := Exec(s, Turns(|Kept(b)| + 8));
            t.phase.AtLoopHead? && t.batches == s.batches + [b] && Pending(t) == []
  {
    var k := |Kept(s.full + [s.current])|;
    FirstTurns(s);
    LastTurns(Exec(s, Turns(k + 3)));
    TurnsAdd(k + 3, 5);
    FoldSplit(DoStep, s, Turns(k + 3), Turns(5));
  }

  /** A whole round: from the head of the loop, eight phases and one more for each buffer kept bring the
      backend back there, with everything that was pending written, unless there were more than 25
      buffers of it. */
  lemma RoundCompletes(s: State)
    requires Inv(s) && s.phase.AtLoopHead?
    ensures var buffers := |s.full| + 1;
            var t := Exec(s, Turns(8 + if buffers <= 25 then buffers else 2));
            && t.phase.AtLoopHead? && Pending(t) == []
            && (buffers <= 25 ==> t.written == s.written + Pending(s))
  {
    var b := s.full + [s.current];
    var n := |Kept(b)| + 8;
    assert n == 8 + if |b| <= 25 then |b| else 2;
    WholeRound(s);
    RunKeepsInv(s, Turns(n));
    WritesOneBatch(s, Exec(s, Turns(n)), b);
    ConcatSnoc(s.full, s.current);
  }

  lemma WritesOneBatch(s: State, t: State, b: seq<Chunk>)
    requires Inv(s) && Inv(t) && s.phase.AtLoopHead? && t.phase.AtLoopHead? && t.batches == s.batches + [b]
    ensures t.written == s.written + Concat(Kept(b))
  {
    assert t.batches[..|s.batches|] == s.batches;
  }

  /** So one round after the last append, with at most 25 buffers, and nothing is missing at the exit. */
  lemma DrainedExit(s: State)
    requires Inv(s) && s.phase.AtLoopHead? && |s.full| < 25
    ensures var t := Exec(s, Turns(9 + |s.full|) + [Backend(false)]);
            t.phase.Exited? && t.written == s.written + Pending(s) && Pending(t) == []
  {
    RoundCompletes(s);
    FoldSnoc(DoStep, s, Turns(9 + |s.full|), Backend(false));
  }
}
