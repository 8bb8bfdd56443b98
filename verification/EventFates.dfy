/**
 What becomes of each callback: which operations take it out of its context, and whether it is
 scheduled or dropped.  Reports are spoken of by bit number here: bit 0 is EPOLLIN, bit 2 EPOLLOUT.
 */
module EventFates {
  import opened EventProtocol
  import opened EventProperties

  /** The callbacks waiting in a context for the events asked for, the read event first. */
  function Taken(c: FdContext, forRead: bool, forWrite: bool): seq<nat> {
    (if forRead && c.read.Waiting? then [c.read.tag] else []) +
    (if forWrite && c.write.Waiting? then [c.write.tag] else [])
  }

  /** Exactly these callbacks leave their slots, and the counter goes down with them. */
  predicate TakenOut(s: State, t: State, ref: Ref, forRead: bool, forWrite: bool)
    requires ref < |s.store|
  {
    var c := s.store[ref];
    && OneContext(s, t, ref)
    && t.store[ref].read == (if forRead then Free else c.read)
    && t.store[ref].write == (if forWrite then Free else c.write)
    && t.pending == s.pending - |Taken(c, forRead, forWrite)| && t.added == s.added
  }

  /** They are scheduled, and nothing is dropped. */
  predicate HandedOver(s: State, t: State, ref: Ref, forRead: bool, forWrite: bool)
    requires ref < |s.store|
  {
    && TakenOut(s, t, ref, forRead, forWrite)
    && t.scheduled == s.scheduled + Taken(s.store[ref], forRead, forWrite) && t.deleted == s.deleted
  }

  /** They are dropped, and nothing is scheduled. */
  predicate DroppedOnly(s: State, t: State, ref: Ref, forRead: bool, forWrite: bool)
    requires ref < |s.store|
  {
    && TakenOut(s, t, ref, forRead, forWrite)
    && t.deleted == s.deleted + multiset(Taken(s.store[ref], forRead, forWrite)) && t.scheduled == s.scheduled
  }

  // ---------------------------------------------------------------- one operation

  /** A removal gets past its early returns exactly if the event's callback is waiting and the kernel
      does not refuse. */
  lemma RemovesIff(s: State, ref: Ref, k: Kind, refused: bool, w: Mask)
    requires Good(w) && Inv(s, w) && ref < |s.store|
    ensures Removes(s, ref, k, refused, w) <==> SlotOf(s.store[ref], k).Waiting? && !refused
  {
    var c := s.store[ref];
    RegisteredIffWaiting(c, k, w);
    if c.events != {} {
      RemovalsFit(s, ref, c.events - Bits(k, w));
    }
  }

  /** An addition the kernel accepts puts the callback in the slot of its event and touches no other. */
  lemma AddFate(s: State, ref: Ref, k: Kind, tag: nat, refused: bool, w: Mask)
    requires Good(w) && Inv(s, w) && ref < |s.store| && SlotOf(s.store[ref], k).Free?
    ensures var t, c := AddStep(s, ref, k, tag, refused, w), s.store[ref];
            if AddFails(s, ref, refused) then t == s
            else
              && OneContext(s, t, ref)
              && t.store[ref].read == (if k.Read? then Waiting(tag) else c.read)
              && t.store[ref].write == (if k.Read? then c.write else Waiting(tag))
              && t.pending == s.pending + 1 && t.added == s.added + multiset{tag}
              && t.scheduled == s.scheduled && t.deleted == s.deleted
              && c.fd in t.kernel && t.kernel[c.fd] == Interest(t.store[ref].events, ref)
  {
  }

  /** `delEvent` drops the callback of its event. */
  lemma DelFate(s: State, ref: Ref, k: Kind, refused: bool, w: Mask)
    requires Good(w) && Inv(s, w) && ref < |s.store|
    ensures var t := DelStep(s, ref, k, refused, w);
            if refused then t == s else DroppedOnly(s, t, ref, k.Read?, k.Write?)
  {
    RemovesIff(s, ref, k, refused, w);
  }

  /** `cancelEvent` schedules it. */
  lemma CancelFate(s: State, ref: Ref, k: Kind, refused: bool, w: Mask)
    requires Good(w) && Inv(s, w) && ref < |s.store|
    ensures var t := CancelStep(s, ref, k, refused, w);
            if refused then t == s else HandedOver(s, t, ref, k.Read?, k.Write?)
  {
    RemovesIff(s, ref, k, refused, w);
  }

  /** A read trigger, then a write trigger, of events whose callbacks are waiting. */
  lemma TriggersFate(s: State, ref: Ref, first: Mask, second: Mask, forRead: bool, forWrite: bool, w: Mask)
    requires ref < |s.store|
    requires (first * READ != {}) == forRead && (second * w != {}) == forWrite
    requires forRead ==> s.store[ref].read.Waiting?
    requires forWrite ==> s.store[ref].write.Waiting?
    ensures var v := TriggerIf(TriggerIf(s, ref, Read, first, w), ref, Write, second, w);
            HandedOver(s, v, ref, forRead, forWrite) && v.kernel == s.kernel
  {
    var t := TriggerIf(s, ref, Read, first, w);
    var v := TriggerIf(t, ref, Write, second, w);
    UpdateTwice(s.store, ref, t.store[ref], v.store[ref]);
    assert t.scheduled == s.scheduled + Taken(s.store[ref], forRead, false);
  }

  /** `cancelAll` schedules both. */
  lemma CancelAllFate(s: State, ref: Ref, refused: bool, w: Mask)
    requires Good(w) && Inv(s, w) && ref < |s.store|
    ensures var t := CancelAllStep(s, ref, refused, w);
            if refused then t == s else HandedOver(s, t, ref, true, true)
  {
    var c := s.store[ref];
    RegisteredIffWaiting(c, Read, w);
    RegisteredIffWaiting(c, Write, w);
    if c.events != {} && !refused {
      RemovalsFit(s, ref, {});
      var u := s.(kernel := s.kernel - {c.fd});
      var second := TriggerIf(u, ref, Read, c.events, w).store[ref].events;
      WriteSurvivesRead(c.events, w);
      TriggersFate(u, ref, c.events, second, c.read.Waiting?, c.write.Waiting?, w);
    }
  }

  /** Which events a report stands for: read for bit 0, write for bit 2, and on an error or a hang-up
      whichever of the two bits is registered. */
  lemma ReportedEvents(c: FdContext, reported: Mask, hangup: bool, w: Mask)
    requires Good(w) && ContextOk(c, w)
    ensures var hit := RealEvents(c.events, reported, hangup, w);
            && (hit * READ != {} <==> 0 in reported || (hangup && c.read.Waiting?))
            && (hit * w != {} <==> 2 in reported || (hangup && 2 in w && c.write.Waiting?))
  {
    var seen := if hangup then reported + (EPOLLIN + EPOLLOUT) * c.events else reported;
    assert 0 in c.events <==> c.read.Waiting?;
    assert 2 in c.events <==> 2 in w && c.write.Waiting?;
    assert 0 in seen ==> 0 in seen * EPOLLIN;
    assert 2 in seen ==> 2 in seen * EPOLLOUT;
    HitParts(seen * EPOLLIN != {}, seen * EPOLLOUT != {}, w);
  }

  lemma HitParts(forRead: bool, forWrite: bool, w: Mask)
    requires Good(w)
    ensures var hit := (if forRead then READ else {}) + (if forWrite then w else {});
            (hit * READ != {} <==> forRead) && (hit * w != {} <==> forWrite)
  {
    var hit := (if forRead then READ else {}) + (if forWrite then w else {});
    var b :| b in w;
    assert forRead ==> 0 in hit * READ;
    assert forWrite ==> b in hit * w;
  }

  /** A report that is right about what is registered schedules the callbacks of the events it stands
      for: read for bit 0, write for bit 2, and on an error or a hang-up both, as far as the write mask
      contains bit 2. */
  lemma DispatchFate(s: State, ref: Ref, reported: Mask, hangup: bool, refused: bool, w: Mask)
    requires Good(w) && Inv(s, w) && ref < |s.store| && BatchOk(s.store[ref].events, reported, hangup, w)
    ensures var t := DispatchStep(s, ref, reported, hangup, refused, w);
            if refused then t == s
            else HandedOver(s, t, ref, 0 in reported || hangup, 2 in reported || (hangup && 2 in w))
  {
    var c := s.store[ref];
    var hit := RealEvents(c.events, reported, hangup, w);
    ReportedEvents(c, reported, hangup, w);
    RegisteredIffWaiting(c, Read, w);
    RegisteredIffWaiting(c, Write, w);
    if c.events * hit == {} {
      NothingHit(c, hit, w);
    } else if !refused {
      RemovalsFit(s, ref, c.events - hit);
      HitIsWhole(c, hit, w);
      var u := s.(kernel := Narrowed(s, ref, c.events - hit));
      TriggersFate(u, ref, hit, hit, hit * READ != {}, hit * w != {}, w);
    }
  }

  lemma NothingHit(c: FdContext, hit: Mask, w: Mask)
    requires Good(w) && ContextOk(c, w) && c.events * hit == {} && HitShape(hit, w)
    ensures hit * READ != {} ==> c.read.Free?
    ensures hit * w != {} ==> c.write.Free?
  {
    assert hit * READ != {} ==> 0 in hit;
    assert hit * w != {} ==> w <= hit;
    RegisteredIffWaiting(c, Read, w);
    RegisteredIffWaiting(c, Write, w);
  }

  // ---------------------------------------------------------------- whole runs

  /** The callbacks an operation hands to the scheduler, oldest first. */
  function Handed(s: State, op: Op, w: Mask): seq<nat> {
    if !Possible(s, op) then []
    else
      match op
      case Cancel(ref, k, refused) => if refused then [] else Taken(s.store[ref], k.Read?, k.Write?)
      case CancelAll(ref, refused) => if refused then [] else Taken(s.store[ref], true, true)
      case Dispatch(ref, reported, hangup, refused) =>
        if refused then []
        else Taken(s.store[ref], 0 in reported || hangup, 2 in reported || (hangup && 2 in w))
      case _ => []
  }

  /** The callbacks it drops. */
  function Dropped(s: State, op: Op): multiset<nat> {
    if op.Del? && Possible(s, op) && !op.refused then multiset(Taken(s.store[op.ref], op.kind.Read?, op.kind.Write?))
    else multiset{}
  }

  function HandedIn(ops: seq<Op>, w: Mask): seq<nat> {
    if ops == [] then []
    else
      var front := ops[..|ops| - 1];
      HandedIn(front, w) + Handed(Run(Init(), front, w), ops[|ops| - 1], w)
  }

  function DroppedIn(ops: seq<Op>, w: Mask): multiset<nat> {
    if ops == [] then multiset{}
    else
      var front := ops[..|ops| - 1];
      DroppedIn(front, w) + Dropped(Run(Init(), front, w), ops[|ops| - 1])
  }

  lemma OpFate(s: State, op: Op, w: Mask)
    requires Good(w) && Inv(s, w) && Allowed(s, op, w)
    ensures DoOp(s, op, w).scheduled == s.scheduled + Handed(s, op, w)
    ensures DoOp(s, op, w).deleted == s.deleted + Dropped(s, op)
  {
    assert s.scheduled + [] == s.scheduled;
    if Possible(s, op) {
      match op
      case Grow(fd, seen) =>
      case Add(ref, k, tag, refused) =>
      case Del(ref, k, refused) => DelFate(s, ref, k, refused, w);
      case Cancel(ref, k, refused) => CancelFate(s, ref, k, refused, w);
      case CancelAll(ref, refused) => CancelAllFate(s, ref, refused, w);
      case Dispatch(ref, reported, hangup, refused) => DispatchFate(s, ref, reported, hangup, refused, w);
    }
  }

  /** In any allowed run the scheduler has been handed exactly the callbacks of cancellations and
      reports, in that order, and dropped are exactly those of successful deletions. */
  lemma {:induction false} FatesAreExact(ops: seq<Op>, w: Mask)
    requires Good(w) && AllowedRun(Init(), ops, w)
    ensures Run(Init(), ops, w).scheduled == HandedIn(ops, w)
    ensures Run(Init(), ops, w).deleted == DroppedIn(ops, w)
  {
    if ops != [] {
      var n := |ops| - 1;
      FatesAreExact(ops[..n], w);
      RunKeepsInv(ops[..n], w);
      OpFate(Run(Init(), ops[..n], w), ops[n], w);
    }
  }
}
