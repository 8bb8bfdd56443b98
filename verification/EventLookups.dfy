/**
 What a shrinking table costs.  `addEvent` decides to make room from a size it read without the
 lock, so a late resize can shorten the table another thread has lengthened meanwhile.  The
 events stay conserved, but a context that falls out of the table can no longer be looked up.
 */
module EventLookups {
  import opened EventProtocol
  import opened EventProperties

  /** A lookup of this context's descriptor leads to this context. */
  predicate InTable(s: State, r: Ref)
    requires r < |s.store|
  {
    s.store[r].fd < |s.table| && s.table[s.store[r].fd] == r
  }

  /** Every context ever made is in the table. */
  predicate Complete(s: State) {
    forall r | 0 <= r < |s.store| :: InTable(s, r)
  }

  predicate FindableAt(s: State, r: Ref)
    requires r < |s.store|
  {
    s.store[r].events != {} ==> InTable(s, r)
  }

  /** Every registered event can be looked up, to delete or to cancel it. */
  predicate Findable(s: State) {
    forall r | 0 <= r < |s.store| :: FindableAt(s, r)
  }

  /** The resize makes the table shorter than it is. */
  predicate Shrinks(s: State, op: Op) {
    op.Grow? && op.seen in s.sizes && op.seen <= op.fd && Room(op.fd) < |s.table|
  }

  /** No event gets out of reach: a resize drops no context with events, and an addition the kernel
      accepts works on a context that is still in the table. */
  predicate KeepsTouch(s: State, op: Op) {
    Possible(s, op) ==>
      match op
      case Grow(fd, seen) =>
        seen <= fd ==>
          forall i | Room(fd) <= i < |s.table| && s.table[i] < |s.store| :: s.store[s.table[i]].events == {}
      case Add(ref, _, _, refused) => AddFails(s, ref, refused) || InTable(s, ref)
      case _ => true
  }

  // ---------------------------------------------------------------- one operation

  /** An operation on a context changes that context only, and only an addition gives it events. */
  lemma ActsOnOne(s: State, op: Op, w: Mask)
    requires Possible(s, op) && !op.Grow?
    ensures var t := DoOp(s, op, w);
            OneContext(s, t, op.ref) && (op.Add? || t.store[op.ref].events <= s.store[op.ref].events)
  {
    match op
    case Add(ref, k, tag, refused) => AddActsOnOne(s, ref, k, tag, refused, w);
    case Del(ref, k, refused) => RemovalsActOnOne(s, ref, k, refused, w);
    case Cancel(ref, k, refused) => RemovalsActOnOne(s, ref, k, refused, w);
    case CancelAll(ref, refused) => CancelAllActsOnOne(s, ref, refused, w);
    case Dispatch(ref, reported, hangup, refused) => DispatchActsOnOne(s, ref, reported, hangup, refused, w);
  }

  lemma AddActsOnOne(s: State, ref: Ref, k: Kind, tag: nat, refused: bool, w: Mask)
    requires ref < |s.store|
    ensures OneContext(s, AddStep(s, ref, k, tag, refused, w), ref)
  {
  }

  lemma RemovalsActOnOne(s: State, ref: Ref, k: Kind, refused: bool, w: Mask)
    requires ref < |s.store|
    ensures var t := DelStep(s, ref, k, refused, w);
            OneContext(s, t, ref) && t.store[ref].events <= s.store[ref].events
    ensures var t := CancelStep(s, ref, k, refused, w);
            OneContext(s, t, ref) && t.store[ref].events <= s.store[ref].events
  {
  }

  lemma TriggersActOnOne(s: State, ref: Ref, first: Mask, second: Mask, w: Mask)
    requires ref < |s.store|
    ensures var v := TriggerIf(TriggerIf(s, ref, Read, first, w), ref, Write, second, w);
            OneContext(s, v, ref) && v.store[ref].events <= s.store[ref].events
  {
    var t := TriggerIf(s, ref, Read, first, w);
    UpdateTwice(s.store, ref, t.store[ref], TriggerIf(t, ref, Write, second, w).store[ref]);
  }

  lemma CancelAllActsOnOne(s: State, ref: Ref, refused: bool, w: Mask)
    requires ref < |s.store|
    ensures var t := CancelAllStep(s, ref, refused, w);
            OneContext(s, t, ref) && t.store[ref].events <= s.store[ref].events
  {
    var u := s.(kernel := s.kernel - {s.store[ref].fd});
    var second := TriggerIf(u, ref, Read, s.store[ref].events, w).store[ref].events;
    TriggersActOnOne(u, ref, s.store[ref].events, second, w);
  }

  lemma DispatchActsOnOne(s: State, ref: Ref, reported: Mask, hangup: bool, refused: bool, w: Mask)
    requires ref < |s.store|
    ensures var t := DispatchStep(s, ref, reported, hangup, refused, w);
            OneContext(s, t, ref) && t.store[ref].events <= s.store[ref].events
  {
    var hit := RealEvents(s.store[ref].events, reported, hangup, w);
    var u := s.(kernel := Narrowed(s, ref, s.store[ref].events - hit));
    TriggersActOnOne(u, ref, hit, hit, w);
  }

  /** Whatever the callers do, the table keeps leading each descriptor to its own contexts. */
  lemma OpKeepsShape(s: State, op: Op, w: Mask)
    requires Shape(s)
    ensures Shape(DoOp(s, op, w))
  {
    if Possible(s, op) {
      if op.Grow? {
        assert op.seen <= op.fd ==> Room(op.fd) >= INITIAL_SIZE;
      } else {
        ActsOnOne(s, op, w);
        ShapeFollows(s, DoOp(s, op, w), op.ref);
      }
    }
  }

  /** A resize keeps every context in the table exactly if it does not shrink it. */
  lemma ResizeCompleteIff(s: State, size: nat)
    requires Shape(s)
    ensures Complete(Resized(s, size)) <==> Complete(s) && size >= |s.table|
  {
    var t, n := Resized(s, size), |s.table|;
    if size < n {
      assert !InTable(t, s.table[n - 1]);
    } else {
      assert forall r | 0 <= r < |s.store| :: InTable(t, r) <==> InTable(s, r);
    }
  }

  lemma OpCompleteIff(s: State, op: Op, w: Mask)
    requires Shape(s)
    ensures Complete(DoOp(s, op, w)) <==> Complete(s) && !Shrinks(s, op)
  {
    if Possible(s, op) {
      if op.Grow? {
        ResizeCompleteIff(s, Room(op.fd));
      } else {
        ActsOnOne(s, op, w);
        var t := DoOp(s, op, w);
        assert forall r | 0 <= r < |s.store| :: InTable(t, r) <==> InTable(s, r);
      }
    }
  }

  lemma ResizeFindableIff(s: State, fd: nat, seen: nat)
    requires Shape(s) && Findable(s) && seen in s.sizes
    ensures Findable(GrowStep(s, fd, seen)) <==> KeepsTouch(s, Grow(fd, seen))
  {
    if seen <= fd {
      var size := Room(fd);
      var t := Resized(s, size);
      if KeepsTouch(s, Grow(fd, seen)) {
        forall r | 0 <= r < |t.store|
          ensures FindableAt(t, r)
        {
          assert r < |s.store| ==> FindableAt(s, r);
        }
      } else {
        var i :| size <= i < |s.table| && s.store[s.table[i]].events != {};
        assert !FindableAt(t, s.table[i]);
      }
    }
  }

  /** One operation, exactly: it keeps every registered event within reach if and only if it drops
      no context with events and adds none to a context already dropped. */
  lemma FindableIff(s: State, op: Op, w: Mask)
    requires Good(w) && Shape(s) && Findable(s)
    ensures Findable(DoOp(s, op, w)) <==> KeepsTouch(s, op)
  {
    if Possible(s, op) {
      if op.Grow? {
        ResizeFindableIff(s, op.fd, op.seen);
      } else {
        var t := DoOp(s, op, w);
        ActsOnOne(s, op, w);
        forall r | 0 <= r < |t.store| && r != op.ref
          ensures FindableAt(t, r)
        {
          assert FindableAt(s, r);
        }
        assert FindableAt(s, op.ref);
        if op.Add? && !AddFails(s, op.ref, op.refused) {
          assert Bits(op.kind, w) != {};
          assert t.store[op.ref].events != {};
          assert FindableAt(t, op.ref) <==> InTable(s, op.ref);
          assert KeepsTouch(s, op) <==> InTable(s, op.ref);
        } else {
          assert FindableAt(t, op.ref);
        }
      }
    }
  }

  // ---------------------------------------------------------------- whole runs

  predicate NeverShrinks(ops: seq<Op>, w: Mask) {
    ops == [] ||
    (NeverShrinks(ops[..|ops| - 1], w) && !Shrinks(Run(Init(), ops[..|ops| - 1], w), ops[|ops| - 1]))
  }

  predicate AlwaysKeepsTouch(ops: seq<Op>, w: Mask) {
    ops == [] ||
    (AlwaysKeepsTouch(ops[..|ops| - 1], w) && KeepsTouch(Run(Init(), ops[..|ops| - 1], w), ops[|ops| - 1]))
  }

  predicate AlwaysFindable(ops: seq<Op>, w: Mask) {
    Findable(Run(Init(), ops, w)) && (ops == [] || AlwaysFindable(ops[..|ops| - 1], w))
  }

  lemma {:induction false} RunKeepsShape(ops: seq<Op>, w: Mask)
    ensures Shape(Run(Init(), ops, w))
  {
    if ops != [] {
      var n := |ops| - 1;
      RunKeepsShape(ops[..n], w);
      OpKeepsShape(Run(Init(), ops[..n], w), ops[n], w);
    }
  }

  /** After any run every context made is in the table if and only if no resize shrank the table. */
  lemma {:induction false} CompleteIff(ops: seq<Op>, w: Mask)
    ensures Complete(Run(Init(), ops, w)) <==> NeverShrinks(ops, w)
  {
    if ops != [] {
      var n := |ops| - 1;
      CompleteIff(ops[..n], w);
      RunKeepsShape(ops[..n], w);
      OpCompleteIff(Run(Init(), ops[..n], w), ops[n], w);
    }
  }

  /** Registered events stay within reach all through a run if and only if no resize drops a context
      with events and no addition goes to a dropped one. */
  lemma {:induction false} AlwaysFindableIff(ops: seq<Op>, w: Mask)
    requires Good(w)
    ensures AlwaysFindable(ops, w) <==> AlwaysKeepsTouch(ops, w)
  {
    if ops == [] {
      assert Findable(Init());
    } else {
      var n := |ops| - 1;
      var s := Run(Init(), ops[..n], w);
      AlwaysFindableIff(ops[..n], w);
      if AlwaysFindable(ops[..n], w) {
        RunKeepsShape(ops[..n], w);
        FindableIff(s, ops[n], w);
      }
    }
  }

  /** While the table never shrinks, every registered event can be looked up and every addition fits
      what the kernel knows. */
  lemma CompleteIsSound(ops: seq<Op>, w: Mask, ref: Ref)
    requires Good(w) && AllowedRun(Init(), ops, w) && NeverShrinks(ops, w)
    ensures var s := Run(Init(), ops, w);
            && Inv(s, w) && Findable(s)
            && (ref < |s.store| ==> CtlMatches(s.kernel, AddOp(s.store[ref].events), s.store[ref].fd))
  {
    var s := Run(Init(), ops, w);
    RunKeepsInv(ops, w);
    CompleteIff(ops, w);
    forall r | 0 <= r < |s.store|
      ensures FindableAt(s, r)
    {
      assert InTable(s, r);
    }
    if ref < |s.store| {
      AdditionFitsIff(s, ref);
      assert InTable(s, ref);
      forall r: nat
        ensures !Elsewhere(s, ref, r)
      {
        assert r < |s.store| ==> InTable(s, r);
      }
    }
  }

  // ---------------------------------------------------------------- staying inside the table

  /** A lookup of this descriptor that trusts this size, read at some earlier time, goes past the end
      of the table. */
  predicate ReadsPast(s: State, fd: nat, seen: nat) { seen in s.sizes && |s.table| <= fd < seen }

  /** No lookup goes past the end at any point of the run. */
  ghost predicate AlwaysInside(ops: seq<Op>, w: Mask) {
    && (forall fd: nat, seen: nat :: !ReadsPast(Run(Init(), ops, w), fd, seen))
    && (ops == [] || AlwaysInside(ops[..|ops| - 1], w))
  }

  /** The table has never been longer than it is. */
  predicate Longest(s: State) { forall z | z in s.sizes :: z <= |s.table| }

  lemma LongestIff(s: State)
    ensures Longest(s) <==> forall fd: nat, seen: nat :: !ReadsPast(s, fd, seen)
  {
    if z :| z in s.sizes && z > |s.table| {
      assert ReadsPast(s, |s.table|, z);
    } else {
      assert forall fd: nat, seen: nat | ReadsPast(s, fd, seen) :: seen > |s.table|;
    }
  }

  lemma GrowLongestIff(s: State, fd: nat, seen: nat)
    requires Shape(s) && Longest(s) && seen in s.sizes
    ensures Longest(GrowStep(s, fd, seen)) <==> !Shrinks(s, Grow(fd, seen))
  {
    assert |s.table| in s.sizes;
  }

  lemma OpLongestIff(s: State, op: Op, w: Mask)
    requires Shape(s) && Longest(s)
    ensures Longest(DoOp(s, op, w)) <==> !Shrinks(s, op)
  {
    if Possible(s, op) {
      if op.Grow? {
        GrowLongestIff(s, op.fd, op.seen);
      } else {
        ActsOnOne(s, op, w);
      }
    }
  }

  /** At no point of a run can a lookup that trusts an earlier size go past the end of the table if and
      only if no resize makes the table shorter. */
  lemma {:induction false} AlwaysInsideIff(ops: seq<Op>, w: Mask)
    ensures AlwaysInside(ops, w) <==> NeverShrinks(ops, w)
  {
    LongestIff(Run(Init(), ops, w));
    if ops == [] {
      assert Init().sizes == {INITIAL_SIZE};
    } else {
      var n := |ops| - 1;
      var s := Run(Init(), ops[..n], w);
      AlwaysInsideIff(ops[..n], w);
      if AlwaysInside(ops[..n], w) {
        LongestIff(s);
        RunKeepsShape(ops[..n], w);
        OpLongestIff(s, ops[n], w);
      }
    }
  }

  /** Every resize is decided from the size the table has at that moment. */
  predicate DecidesUnderLock(ops: seq<Op>, w: Mask) {
    ops == [] ||
    var front, last := ops[..|ops| - 1], ops[|ops| - 1];
    DecidesUnderLock(front, w) && (last.Grow? ==> last.seen == |Run(Init(), front, w).table|)
  }

  /** Deciding from the size under the lock is enough to keep the table from shrinking. */
  lemma {:induction false} DecidingUnderLockSuffices(ops: seq<Op>, w: Mask)
    requires DecidesUnderLock(ops, w)
    ensures NeverShrinks(ops, w) && AlwaysInside(ops, w)
  {
    if ops != [] {
      DecidingUnderLockSuffices(ops[..|ops| - 1], w);
    }
    AlwaysInsideIff(ops, w);
  }

  // ---------------------------------------------------------------- the shrinking run

  /** Two threads read the size 32. One makes room for descriptor 100 and registers it; the other
      makes room for descriptor 60, and the table goes from 150 to 90 places. The kernel still
      watches descriptor 100, whose context is out of reach; and a third thread that read the size 150
      in between looks descriptor 100 up past the end of the table. */
  lemma ShrinkLosesTouch(w: Mask)
    requires Good(w)
    ensures var ops := [Grow(100, 32), Add(100, Read, 7, false), Grow(60, 32)];
            var s := Run(Init(), ops, w);
            && PossibleRun(Init(), ops, w) && AllowedRun(Init(), ops, w)
            && Inv(s, w) && !Findable(s) && |s.table| == 90 && ReadsPast(s, 100, 150) && 100 in s.kernel
  {
    var g, a, h := Grow(100, 32), Add(100, Read, 7, false), Grow(60, 32);
    var s1 := GrowStep(Init(), 100, 32);
    var s2 := AddStep(s1, 100, Read, 7, false, w);
    ShrinkingSteps(w);
    Extend([], g, w);
    assert [] + [g] == [g];
    Extend([g], a, w);
    assert [g] + [a] == [g, a];
    Extend([g, a], h, w);
    assert [g, a] + [h] == [g, a, h];
    RunKeepsInv([g, a, h], w);
  }

  lemma ShrinkingSteps(w: Mask)
    ensures var s1 := GrowStep(Init(), 100, 32);
            && |s1.store| == 150 && |s1.table| == 150 && s1.sizes == {32, 150}
            && s1.table[100] == 100 && s1.store[100] == Idle(100) && 100 !in s1.kernel
    ensures var s2 := AddStep(GrowStep(Init(), 100, 32), 100, Read, 7, false, w);
            var s3 := GrowStep(s2, 60, 32);
            && |s2.store| == 150 && 32 in s2.sizes
            && |s3.table| == 90 && 150 in s3.sizes && 100 in s3.kernel && !Findable(s3)
  {
    var s2 := AddStep(GrowStep(Init(), 100, 32), 100, Read, 7, false, w);
    assert s2.store[100] == FdContext(100, READ, Waiting(7), Free);
    assert 0 in s2.store[100].events;
    assert !FindableAt(GrowStep(s2, 60, 32), 100);
  }

  /** Looking descriptor 100 up again makes a second context for it, with no events; and the kernel
      turns the first addition to it down. */
  lemma DroppedContextBlocks(s: State, w: Mask)
    requires Inv(s, w) && |s.table| == 90 && 90 in s.sizes && 100 in s.kernel
    ensures var t := GrowStep(s, 100, 90);
            && |t.table| == 150 && t.table[100] < |t.store|
            && t.store[t.table[100]].events == {} && AddFails(t, t.table[100], false)
  {
  }
}
