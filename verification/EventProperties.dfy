/**
 Conservation of registered events under any interleaving, the exact condition on the event masks
 it needs, and exactly when a resize takes registered events out of the callers' reach.
 */
module EventProperties {
  import opened EventProtocol

  /** The write event has bits of its own. */
  predicate Good(w: Mask) { w != {} && w !! READ }

  // ---------------------------------------------------------------- the invariant

  /** A callback is waiting exactly for the events whose bits are set. */
  predicate ContextOk(c: FdContext, w: Mask) {
    c.events == (if c.read.Waiting? then READ else {}) + (if c.write.Waiting? then w else {})
  }

  predicate ContextsOk(store: seq<FdContext>, w: Mask) {
    forall r | 0 <= r < |store| :: ContextOk(store[r], w)
  }

  /** The table leads each descriptor to a context of its own, and never has fewer than 32 places. */
  predicate Shape(s: State) {
    && (forall i | 0 <= i < |s.table| :: s.table[i] < |s.store| && s.store[s.table[i]].fd == i)
    && |s.table| in s.sizes
    && (forall z | z in s.sizes :: z >= INITIAL_SIZE)
  }

  /** The kernel watches a descriptor for exactly the events of the context it points to. */
  predicate Watches(s: State, fd: nat)
    requires fd in s.kernel
  {
    var i := s.kernel[fd];
    i.mask != {} && i.ref < |s.store| && s.store[i.ref].fd == fd && s.store[i.ref].events == i.mask
  }

  /** A context with events is the one the kernel points to. */
  predicate Watched(s: State, r: Ref)
    requires r < |s.store|
  {
    s.store[r].events != {} ==> s.store[r].fd in s.kernel && s.kernel[s.store[r].fd].ref == r
  }

  predicate KernelOk(s: State) {
    && (forall fd | fd in s.kernel :: Watches(s, fd))
    && (forall r | 0 <= r < |s.store| :: Watched(s, r))
  }

  /** What to count: every waiting callback, or those with one tag. */
  datatype Which = Every | Only(tag: nat)

  function Weight(slot: Slot, which: Which): nat {
    if slot.Waiting? && (which.Every? || slot.tag == which.tag) then 1 else 0
  }

  function Held(c: FdContext, which: Which): nat { Weight(c.read, which) + Weight(c.write, which) }

  /** The callbacks waiting in the first `n` contexts. */
  function WaitingIn(store: seq<FdContext>, n: nat, which: Which): nat
    requires n <= |store|
  {
    if n == 0 then 0 else WaitingIn(store, n - 1, which) + Held(store[n - 1], which)
  }

  function WaitingCount(store: seq<FdContext>, which: Which): nat { WaitingIn(store, |store|, which) }

  /** The counter counts the waiting callbacks. */
  predicate Counted(s: State) { s.pending == WaitingCount(s.store, Every) }

  /** Every registration is waiting, scheduled or deleted, exactly one of the three. */
  ghost predicate Settled(s: State) {
    forall x: nat :: s.added[x] == WaitingCount(s.store, Only(x)) + multiset(s.scheduled)[x] + s.deleted[x]
  }

  ghost predicate Balanced(s: State) { Counted(s) && Settled(s) }

  ghost predicate Inv(s: State, w: Mask) {
    Shape(s) && ContextsOk(s.store, w) && KernelOk(s) && Balanced(s)
  }

  // ---------------------------------------------------------------- bookkeeping lemmas

  lemma {:induction false} WaitingUpdate(store: seq<FdContext>, n: nat, i: nat, c: FdContext, which: Which)
    requires i < |store| && n <= |store|
    ensures WaitingIn(store[i := c], n, which) ==
            WaitingIn(store, n, which) + if i < n then Held(c, which) - Held(store[i], which) else 0
  {
    if n > 0 {
      WaitingUpdate(store, n - 1, i, c, which);
    }
  }

  lemma {:induction false} WaitingGrows(store: seq<FdContext>, grown: seq<FdContext>, n: nat, which: Which)
    requires store <= grown && n <= |grown|
    requires forall i | |store| <= i < |grown| :: Held(grown[i], Every) == 0
    ensures WaitingIn(grown, n, which) == WaitingIn(store, if n < |store| then n else |store|, which)
  {
    if n > 0 {
      WaitingGrows(store, grown, n - 1, which);
    }
  }

  /** Under separate masks a registered bit and a waiting callback are the same thing. */
  lemma RegisteredIffWaiting(c: FdContext, k: Kind, w: Mask)
    requires Good(w) && ContextOk(c, w)
    ensures c.events * Bits(k, w) != {} <==> SlotOf(c, k).Waiting?
    ensures SlotOf(c, k).Waiting? ==> Bits(k, w) <= c.events
    ensures ContextOk(Trigger(c, k, w), w)
  {
    if c.read.Waiting? {
      assert 0 in c.events * READ;
    }
    if c.write.Waiting? {
      var b :| b in w;
      assert b in c.events * w;
    }
  }

  // ---------------------------------------------------------------- each operation

  /** Only what belongs to one context changes, and the kernel follows its events. */
  predicate OneContext(s: State, t: State, ref: Ref)
    requires ref < |s.store|
  {
    && |t.store| == |s.store| && t.store == s.store[ref := t.store[ref]]
    && t.store[ref].fd == s.store[ref].fd
    && t.table == s.table && t.sizes == s.sizes
  }

  predicate KernelFollowed(s: State, t: State, ref: Ref)
    requires ref < |s.store| == |t.store|
  {
    var c := t.store[ref];
    t.kernel == if c.events == {} then s.kernel - {c.fd} else s.kernel[c.fd := Interest(c.events, ref)]
  }

  /** What `epoll_ctl` just accepted says who was registered for the descriptor. */
  predicate Owner(s: State, ref: Ref)
    requires ref < |s.store|
  {
    s.store[ref].fd in s.kernel ==> s.kernel[s.store[ref].fd].ref == ref
  }

  lemma ShapeFollows(s: State, t: State, ref: Ref)
    requires Shape(s) && ref < |s.store| && OneContext(s, t, ref)
    ensures Shape(t)
  {
  }

  lemma KernelFollows(s: State, t: State, ref: Ref)
    requires KernelOk(s) && ref < |s.store| && OneContext(s, t, ref) && Owner(s, ref)
    requires KernelFollowed(s, t, ref)
    ensures KernelOk(t)
  {
    forall fd | fd in t.kernel
      ensures Watches(t, fd)
    {
      assert fd != s.store[ref].fd ==> Watches(s, fd);
    }
    forall r | 0 <= r < |t.store|
      ensures Watched(t, r)
    {
      assert Watched(s, r);
    }
  }

  /** `epoll_ctl` never finds a removal at odds with what it knows: whoever has events is the one
      the kernel points to. */
  lemma RemovalsFit(s: State, ref: Ref, left: Mask)
    requires KernelOk(s) && ref < |s.store| && s.store[ref].events != {}
    ensures CtlMatches(s.kernel, RemoveOp(left), s.store[ref].fd) && Owner(s, ref)
  {
    assert Watched(s, ref);
  }

  predicate Elsewhere(s: State, ref: Ref, r: nat)
    requires ref < |s.store|
  {
    r < |s.store| && r != ref && s.store[r].fd == s.store[ref].fd && s.store[r].events != {}
  }

  /** An addition fits exactly if no other context of the same descriptor has events. */
  lemma AdditionFitsIff(s: State, ref: Ref)
    requires KernelOk(s) && ref < |s.store|
    ensures CtlMatches(s.kernel, AddOp(s.store[ref].events), s.store[ref].fd)
            <==> s.store[ref].events != {} || !exists r: nat :: Elsewhere(s, ref, r)
    ensures CtlMatches(s.kernel, AddOp(s.store[ref].events), s.store[ref].fd) ==> Owner(s, ref)
  {
    var fd := s.store[ref].fd;
    assert Watched(s, ref);
    if fd in s.kernel && s.store[ref].events == {} {
      assert Watches(s, fd);
      assert Elsewhere(s, ref, s.kernel[fd].ref);
    }
    if r: nat :| Elsewhere(s, ref, r) {
      assert Watched(s, r);
    }
  }

  lemma GrowKeepsInv(s: State, fd: nat, seen: nat, w: Mask)
    requires Inv(s, w) && seen in s.sizes
    ensures Inv(GrowStep(s, fd, seen), w)
  {
    var t := GrowStep(s, fd, seen);
    if seen <= fd {
      forall which: Which
        ensures WaitingCount(t.store, which) == WaitingCount(s.store, which)
      {
        WaitingGrows(s.store, t.store, |t.store|, which);
      }
      ResizeKeepsKernel(s, Room(fd), w);
      assert Counted(t) && Settled(t);
    }
  }

  lemma ResizeKeepsKernel(s: State, size: nat, w: Mask)
    requires Shape(s) && ContextsOk(s.store, w) && KernelOk(s) && size >= INITIAL_SIZE
    ensures var t := Resized(s, size);
            Shape(t) && ContextsOk(t.store, w) && KernelOk(t)
  {
    var t := Resized(s, size);
    forall fd | fd in t.kernel
      ensures Watches(t, fd)
    {
      assert Watches(s, fd);
    }
    forall r | 0 <= r < |t.store|
      ensures Watched(t, r)
    {
      assert r < |s.store| ==> Watched(s, r);
    }
  }

  /** Putting one callback into a free slot. */
  lemma PutIn(s: State, ref: Ref, k: Kind, tag: nat, w: Mask)
    requires Good(w) && ref < |s.store| && ContextsOk(s.store, w)
    requires s.store[ref].events * Bits(k, w) == {}
    ensures var d := Registered(s.store[ref], k, tag, w);
            && ContextsOk(s.store[ref := d], w) && d.events != {}
            && forall which: Which ::
                 WaitingCount(s.store[ref := d], which) == WaitingCount(s.store, which) + Weight(Waiting(tag), which)
  {
    var c := s.store[ref];
    RegisteredIffWaiting(c, k, w);
    var d := Registered(c, k, tag, w);
    assert ContextOk(d, w);
    assert Bits(k, w) != {};
    forall which: Which
      ensures WaitingCount(s.store[ref := d], which) == WaitingCount(s.store, which) + Weight(Waiting(tag), which)
    {
      WaitingUpdate(s.store, |s.store|, ref, d, which);
    }
  }

  /** Taking one waiting callback out, to schedule it or to delete it. */
  lemma TakeOut(s: State, ref: Ref, k: Kind, w: Mask)
    requires Good(w) && ref < |s.store| && ContextsOk(s.store, w)
    requires s.store[ref].events * Bits(k, w) != {}
    ensures var c := s.store[ref];
            var after := s.store[ref := Trigger(c, k, w)];
            && ContextsOk(after, w) && SlotOf(c, k).Waiting?
            && forall which: Which ::
                 WaitingCount(s.store, which) == WaitingCount(after, which) + Weight(SlotOf(c, k), which)
  {
    var c := s.store[ref];
    RegisteredIffWaiting(c, k, w);
    var d := Trigger(c, k, w);
    forall which: Which
      ensures WaitingCount(s.store, which) == WaitingCount(s.store[ref := d], which) + Weight(SlotOf(c, k), which)
    {
      WaitingUpdate(s.store, |s.store|, ref, d, which);
    }
  }

  lemma AddKeepsInv(s: State, ref: Ref, k: Kind, tag: nat, refused: bool, w: Mask)
    requires Good(w) && Inv(s, w) && ref < |s.store| && s.store[ref].events * Bits(k, w) == {}
    ensures Inv(AddStep(s, ref, k, tag, refused, w), w)
  {
    if !AddFails(s, ref, refused) {
      var t := AddStep(s, ref, k, tag, refused, w);
      PutIn(s, ref, k, tag, w);
      AddedFollows(s, t, ref);
      AddedBalances(s, t, tag);
    }
  }

  lemma AddedFollows(s: State, t: State, ref: Ref)
    requires Shape(s) && KernelOk(s) && ref < |s.store| && OneContext(s, t, ref) && t.store[ref].events != {}
    requires CtlMatches(s.kernel, AddOp(s.store[ref].events), s.store[ref].fd)
    requires t.kernel == s.kernel[s.store[ref].fd := Interest(t.store[ref].events, ref)]
    ensures Shape(t) && KernelOk(t)
  {
    AdditionFitsIff(s, ref);
    ShapeFollows(s, t, ref);
    KernelFollows(s, t, ref);
  }

  lemma AddedBalances(s: State, t: State, tag: nat)
    requires Balanced(s) && t.pending == s.pending + 1 && t.added == s.added + multiset{tag}
    requires t.scheduled == s.scheduled && t.deleted == s.deleted
    requires forall which: Which ::
               WaitingCount(t.store, which) == WaitingCount(s.store, which) + Weight(Waiting(tag), which)
    ensures Balanced(t)
  {
    assert WaitingCount(t.store, Every) == WaitingCount(s.store, Every) + Weight(Waiting(tag), Every);
    forall x: nat
      ensures t.added[x] == WaitingCount(t.store, Only(x)) + multiset(t.scheduled)[x] + t.deleted[x]
    {
      assert WaitingCount(t.store, Only(x)) == WaitingCount(s.store, Only(x)) + Weight(Waiting(tag), Only(x));
    }
  }

  /** A callback that stops waiting and is scheduled or deleted instead leaves the books balanced. */
  lemma TakenBalances(s: State, t: State, slot: Slot)
    requires Balanced(s) && slot.Waiting? && t.pending == s.pending - 1 && t.added == s.added
    requires forall which: Which :: WaitingCount(s.store, which) == WaitingCount(t.store, which) + Weight(slot, which)
    requires forall x: nat ::
               multiset(t.scheduled)[x] + t.deleted[x] ==
               multiset(s.scheduled)[x] + s.deleted[x] + multiset(Tags(slot))[x]
    ensures Balanced(t)
  {
    assert WaitingCount(s.store, Every) == WaitingCount(t.store, Every) + Weight(slot, Every);
    forall x: nat
      ensures t.added[x] == WaitingCount(t.store, Only(x)) + multiset(t.scheduled)[x] + t.deleted[x]
    {
      assert WaitingCount(s.store, Only(x)) == WaitingCount(t.store, Only(x)) + Weight(slot, Only(x));
    }
  }

  /** Whatever becomes of the callback, taking the event out keeps table, contexts and kernel right. */
  lemma TakenFollows(s: State, t: State, ref: Ref, k: Kind, w: Mask)
    requires Good(w) && Shape(s) && ContextsOk(s.store, w) && KernelOk(s) && ref < |s.store|
    requires s.store[ref].events * Bits(k, w) != {}
    requires t.store == s.store[ref := Trigger(s.store[ref], k, w)] && t.table == s.table && t.sizes == s.sizes
    requires t.kernel == Narrowed(s, ref, s.store[ref].events - Bits(k, w))
    ensures Shape(t) && KernelOk(t)
  {
    RemovalsFit(s, ref, t.store[ref].events);
    ShapeFollows(s, t, ref);
    KernelFollows(s, t, ref);
  }

  lemma DelKeepsInv(s: State, ref: Ref, k: Kind, refused: bool, w: Mask)
    requires Good(w) && Inv(s, w) && ref < |s.store|
    ensures Inv(DelStep(s, ref, k, refused, w), w)
  {
    if Removes(s, ref, k, refused, w) {
      var t := DelStep(s, ref, k, refused, w);
      TakeOut(s, ref, k, w);
      TakenFollows(s, t, ref, k, w);
      TakenBalances(s, t, SlotOf(s.store[ref], k));
    }
  }

  lemma CancelKeepsInv(s: State, ref: Ref, k: Kind, refused: bool, w: Mask)
    requires Good(w) && Inv(s, w) && ref < |s.store|
    ensures Inv(CancelStep(s, ref, k, refused, w), w)
  {
    if Removes(s, ref, k, refused, w) {
      var t := CancelStep(s, ref, k, refused, w);
      TakeOut(s, ref, k, w);
      TakenFollows(s, t, ref, k, w);
      TakenBalances(s, t, SlotOf(s.store[ref], k));
    }
  }

  lemma TriggerIfBalances(s: State, ref: Ref, k: Kind, which: Mask, w: Mask)
    requires Good(w) && ref < |s.store| && ContextsOk(s.store, w) && Balanced(s)
    requires which * Bits(k, w) != {} ==> s.store[ref].events * Bits(k, w) != {}
    ensures var t := TriggerIf(s, ref, k, which, w);
            && ContextsOk(t.store, w) && Balanced(t) && t.kernel == s.kernel && OneContext(s, t, ref)
            && t.store[ref].events == s.store[ref].events - (if which * Bits(k, w) == {} then {} else Bits(k, w))
  {
    if which * Bits(k, w) != {} {
      TakeOut(s, ref, k, w);
      TakenBalances(s, TriggerIf(s, ref, k, which, w), SlotOf(s.store[ref], k));
    }
  }

  /** A read trigger followed by a write trigger, each guarded by a mask. */
  lemma BothBalance(s: State, ref: Ref, first: Mask, second: Mask, w: Mask)
    requires Good(w) && ref < |s.store| && ContextsOk(s.store, w) && Balanced(s)
    requires first * READ != {} ==> s.store[ref].events * READ != {}
    requires second * w != {} ==> s.store[ref].events * w != {}
    ensures var v := TriggerIf(TriggerIf(s, ref, Read, first, w), ref, Write, second, w);
            && ContextsOk(v.store, w) && Balanced(v) && v.kernel == s.kernel && OneContext(s, v, ref)
            && v.store[ref].events == s.store[ref].events - (if first * READ == {} then {} else READ)
                                      - (if second * w == {} then {} else w)
  {
    TriggerIfBalances(s, ref, Read, first, w);
    var t := TriggerIf(s, ref, Read, first, w);
    WriteSurvivesRead(s.store[ref].events, w);
    assert second * w != {} ==> t.store[ref].events * w != {};
    TriggerIfBalances(t, ref, Write, second, w);
    UpdateTwice(s.store, ref, t.store[ref], TriggerIf(t, ref, Write, second, w).store[ref]);
  }

  lemma WriteSurvivesRead(events: Mask, w: Mask)
    requires Good(w)
    ensures (events - READ) * w == events * w && (events - {}) * w == events * w
  {
  }

  lemma UpdateTwice<T>(xs: seq<T>, i: nat, x: T, y: T)
    requires i < |xs|
    ensures xs[i := x][i := y] == xs[i := y]
  {
  }

  lemma CancelAllKeepsInv(s: State, ref: Ref, refused: bool, w: Mask)
    requires Good(w) && Inv(s, w) && ref < |s.store|
    ensures Inv(CancelAllStep(s, ref, refused, w), w)
    ensures !refused ==> CancelAllStep(s, ref, refused, w).store[ref].events == {}
  {
    if s.store[ref].events != {} {
      RemovalsFit(s, ref, {});
      if !refused {
        CancelAllFires(s, ref, w);
      }
    }
  }

  lemma CancelAllFires(s: State, ref: Ref, w: Mask)
    requires Good(w) && Inv(s, w) && ref < |s.store| && s.store[ref].events != {}
    requires Owner(s, ref) && CtlMatches(s.kernel, CtlDel, s.store[ref].fd)
    ensures Inv(CancelAllStep(s, ref, false, w), w)
    ensures CancelAllStep(s, ref, false, w).store[ref].events == {}
  {
    var events := s.store[ref].events;
    var u := s.(kernel := s.kernel - {s.store[ref].fd});
    var second := TriggerIf(u, ref, Read, events, w).store[ref].events;
    assert Balanced(u);
    EverythingTaken(s.store[ref], w);
    BothBalance(u, ref, events, second, w);
    var t := CancelAllStep(s, ref, false, w);
    ShapeFollows(s, t, ref);
    KernelFollows(s, t, ref);
  }

  /** The two events are all a context can hold. */
  lemma EverythingTaken(c: FdContext, w: Mask)
    requires Good(w) && ContextOk(c, w)
    ensures var left := if c.events * READ == {} then c.events else c.events - READ;
            left * w == {} ==> left == {}
    ensures var left := if c.events * READ == {} then c.events else c.events - READ;
            left - w == {}
  {
    if c.write.Waiting? {
      var b :| b in w;
      assert b in (c.events - READ) * w;
      assert b in c.events * w;
    }
    if c.read.Waiting? {
      assert 0 in c.events * READ;
    }
  }

  lemma DispatchKeepsInv(s: State, ref: Ref, reported: Mask, hangup: bool, refused: bool, w: Mask)
    requires Good(w) && Inv(s, w) && ref < |s.store|
    requires BatchOk(s.store[ref].events, reported, hangup, w)
    ensures Inv(DispatchStep(s, ref, reported, hangup, refused, w), w)
  {
    var hit := RealEvents(s.store[ref].events, reported, hangup, w);
    if Fires(s, ref, hit, refused) {
      DispatchFires(s, ref, hit, w);
    }
  }

  lemma DispatchFires(s: State, ref: Ref, hit: Mask, w: Mask)
    requires Good(w) && Inv(s, w) && ref < |s.store| && s.store[ref].events * hit != {}
    requires hit <= s.store[ref].events && HitShape(hit, w)
    ensures var u := s.(kernel := Narrowed(s, ref, s.store[ref].events - hit));
            Inv(TriggerIf(TriggerIf(u, ref, Read, hit, w), ref, Write, hit, w), w)
  {
    var left := s.store[ref].events - hit;
    var u := s.(kernel := Narrowed(s, ref, left));
    assert Balanced(u);
    RemovalsFit(s, ref, left);
    HitIsWhole(s.store[ref], hit, w);
    BothBalance(u, ref, hit, hit, w);
    var v := TriggerIf(TriggerIf(u, ref, Read, hit, w), ref, Write, hit, w);
    assert v.store[ref].events == left;
    ShapeFollows(s, v, ref);
    KernelFollows(s, v, ref);
  }

  predicate HitShape(hit: Mask, w: Mask) { hit == {} || hit == READ || hit == w || hit == READ + w }

  /** A batch that names registered events only names whole ones. */
  lemma HitIsWhole(c: FdContext, hit: Mask, w: Mask)
    requires Good(w) && ContextOk(c, w) && hit <= c.events && HitShape(hit, w)
    ensures hit * READ != {} ==> c.events * READ != {}
    ensures hit * w != {} ==> c.events * w != {}
    ensures hit == (if hit * READ != {} then READ else {}) + (if hit * w != {} then w else {})
  {
    if hit * READ != {} {
      var b :| b in hit * READ;
      assert b in c.events * READ;
    }
    if hit * w != {} {
      var b :| b in hit * w;
      assert b in c.events * w;
    }
  }

  lemma OpKeepsInv(s: State, op: Op, w: Mask)
    requires Good(w) && Inv(s, w) && Allowed(s, op, w)
    ensures Inv(DoOp(s, op, w), w)
  {
    if Possible(s, op) {
      match op
      case Grow(fd, seen) => GrowKeepsInv(s, fd, seen, w);
      case Add(ref, k, tag, refused) => AddKeepsInv(s, ref, k, tag, refused, w);
      case Del(ref, k, refused) => DelKeepsInv(s, ref, k, refused, w);
      case Cancel(ref, k, refused) => CancelKeepsInv(s, ref, k, refused, w);
      case CancelAll(ref, refused) => CancelAllKeepsInv(s, ref, refused, w);
      case Dispatch(ref, reported, hangup, refused) => DispatchKeepsInv(s, ref, reported, hangup, refused, w);
    }
  }

  lemma InitInv(w: Mask)
    ensures Inv(Init(), w)
  {
    var empty := State([], [], map[], 0, {}, multiset{}, [], multiset{});
    forall which: Which
      ensures WaitingCount(Init().store, which) == 0
    {
      WaitingGrows([], Init().store, INITIAL_SIZE, which);
    }
  }

  /** Events are conserved in any interleaving, resizes that shrink the table included. */
  lemma {:induction false} RunKeepsInv(ops: seq<Op>, w: Mask)
    requires Good(w) && AllowedRun(Init(), ops, w)
    ensures Inv(Run(Init(), ops, w), w)
  {
    if ops == [] {
      InitInv(w);
    } else {
      var n := |ops| - 1;
      RunKeepsInv(ops[..n], w);
      OpKeepsInv(Run(Init(), ops[..n], w), ops[n], w);
    }
  }

  // ---------------------------------------------------------------- exactly which masks work

  /** A write event without bits of its own is in the kernel list but in no context. */
  lemma EmptyMaskFails()
    ensures var ops := [Add(0, Write, 7, false)];
            AllowedRun(Init(), ops, {}) && !Inv(Run(Init(), ops, {}), {})
  {
    var ops := [Add(0, Write, 7, false)];
    assert ops[..0] == [];
    var t := Run(Init(), ops, {});
    assert t == AddStep(Init(), 0, Write, 7, false, {});
    assert 0 in t.kernel && !Watches(t, 0);
  }

  /** Deleting a read event nobody registered succeeds when the write event shares its bit, and
      the count goes to zero with a callback still waiting. */
  lemma OverlapFails(w: Mask)
    requires 0 in w
    ensures var ops := [Add(0, Write, 7, false), Del(0, Read, false)];
            AllowedRun(Init(), ops, w) && !Inv(Run(Init(), ops, w), w)
  {
    var first, second := Add(0, Write, 7, false), Del(0, Read, false);
    var ops := [first, second];
    assert ops[..1] == [first] && [first][..0] == [];
    var s := AddStep(Init(), 0, Write, 7, false, w);
    assert Run(Init(), [first], w) == s;
    OverlapStep(w);
    assert Run(Init(), ops, w) == DelStep(s, 0, Read, false, w);
  }

  lemma OverlapStep(w: Mask)
    requires 0 in w
    ensures var t := DelStep(AddStep(Init(), 0, Write, 7, false, w), 0, Read, false, w);
            !ContextOk(t.store[0], w) && t.pending == 0 && t.store[0].write == Waiting(7)
  {
    var s := AddStep(Init(), 0, Write, 7, false, w);
    assert s.store[0] == FdContext(0, w, Free, Waiting(7)) && 0 in s.kernel;
    assert 0 in s.store[0].events * READ;
    var t := DelStep(s, 0, Read, false, w);
    assert t.store[0] == FdContext(0, w - READ, Free, Waiting(7));
    assert 0 in w && 0 !in w - READ;
  }

  /** Events are conserved in every allowed run if and only if the write mask is not empty and
      shares no bit with the read mask. */
  lemma ConservationIff(w: Mask)
    ensures Good(w) <==> forall ops | AllowedRun(Init(), ops, w) :: Inv(Run(Init(), ops, w), w)
  {
    if Good(w) {
      forall ops | AllowedRun(Init(), ops, w)
        ensures Inv(Run(Init(), ops, w), w)
      {
        RunKeepsInv(ops, w);
      }
    } else if w == {} {
      EmptyMaskFails();
    } else {
      assert 0 in w by {
        var b :| b in w * READ;
      }
      OverlapFails(w);
    }
  }

  /** The value in the source is not such a mask; the one its comment announces is. */
  lemma SourceMaskFails()
    ensures !Good(SOURCE_WRITE) && Good(EPOLLOUT)
  {
    assert 0 in SOURCE_WRITE && 0 in READ;
  }

  // ---------------------------------------------------------------- exactly which calls work

  /** One dispatch, exactly: with separate masks it conserves the events if and only if what it is
      told about is registered or it has nothing to do; otherwise it triggers an event that has no
      callback, and calls through a scheduler that is not there. */
  lemma DispatchIff(s: State, ref: Ref, reported: Mask, hangup: bool, w: Mask)
    requires Good(w) && Inv(s, w) && ref < |s.store|
    ensures Inv(DispatchStep(s, ref, reported, hangup, false, w), w)
            <==> BatchOk(s.store[ref].events, reported, hangup, w)
    ensures FiresFree(s, ref, reported, hangup, false, w) <==> !BatchOk(s.store[ref].events, reported, hangup, w)
  {
    var c := s.store[ref];
    var hit := RealEvents(c.events, reported, hangup, w);
    RegisteredIffWaiting(c, Read, w);
    RegisteredIffWaiting(c, Write, w);
    if BatchOk(c.events, reported, hangup, w) {
      DispatchKeepsInv(s, ref, reported, hangup, false, w);
      if c.events * hit != {} {
        HitIsWhole(c, hit, w);
      }
    } else {
      UnregisteredHit(c, reported, hangup, w);
      RemovalsFit(s, ref, c.events - hit);
      UnregisteredUnbalances(s, ref, reported, hangup, w);
    }
  }

  lemma UnregisteredHit(c: FdContext, reported: Mask, hangup: bool, w: Mask)
    requires Good(w) && ContextOk(c, w) && !BatchOk(c.events, reported, hangup, w)
    ensures var hit := RealEvents(c.events, reported, hangup, w);
            hit * READ != {} && hit * w != {} && c.events * hit != {}
    ensures Held(c, Every) == 1
  {
    var hit := RealEvents(c.events, reported, hangup, w);
    assert hit == READ + w;
    assert 0 in hit * READ;
    var b :| b in w;
    assert b in hit * w;
  }

  /** Both events are reported and only one is registered: the count drops by two. */
  lemma UnregisteredUnbalances(s: State, ref: Ref, reported: Mask, hangup: bool, w: Mask)
    requires Good(w) && Inv(s, w) && ref < |s.store|
    requires !BatchOk(s.store[ref].events, reported, hangup, w)
    ensures !Balanced(DispatchStep(s, ref, reported, hangup, false, w))
  {
    var c := s.store[ref];
    var hit := RealEvents(c.events, reported, hangup, w);
    UnregisteredHit(c, reported, hangup, w);
    RemovalsFit(s, ref, c.events - hit);
    var u := s.(kernel := Narrowed(s, ref, c.events - hit));
    var t := TriggerIf(u, ref, Read, hit, w);
    var v := TriggerIf(t, ref, Write, hit, w);
    WaitingUpdate(u.store, |u.store|, ref, t.store[ref], Every);
    WaitingUpdate(t.store, |t.store|, ref, v.store[ref], Every);
    assert v == DispatchStep(s, ref, reported, hangup, false, w);
  }

  /** One addition, exactly: when the kernel accepts it, it conserves the events if and only if the
      event was not registered before; otherwise the callback that waited is lost. */
  lemma AddIff(s: State, ref: Ref, k: Kind, tag: nat, w: Mask)
    requires Good(w) && Inv(s, w) && ref < |s.store| && !AddFails(s, ref, false)
    ensures Inv(AddStep(s, ref, k, tag, false, w), w) <==> s.store[ref].events * Bits(k, w) == {}
  {
    var c := s.store[ref];
    if c.events * Bits(k, w) == {} {
      AddKeepsInv(s, ref, k, tag, false, w);
    } else {
      RegisteredIffWaiting(c, k, w);
      var d := Registered(c, k, tag, w);
      WaitingUpdate(s.store, |s.store|, ref, d, Every);
      assert Held(d, Every) == Held(c, Every);
    }
  }

  // ---------------------------------------------------------------- runs that reach the others

  /** One thread adds both events of descriptor 0 and deletes the read event again. The report the
      event loop took before the deletion names both, and dispatching it triggers the read event,
      which has no callback, and takes the count below zero. */
  lemma StaleReportFails(w: Mask)
    requires Good(w)
    ensures var ops := [Add(0, Read, 1, false), Add(0, Write, 2, false), Del(0, Read, false)];
            var s := Run(Init(), ops, w);
            && PossibleRun(Init(), ops, w) && AllowedRun(Init(), ops, w) && Inv(s, w) && 0 < |s.store|
            && var t := DispatchStep(s, 0, EPOLLIN + EPOLLOUT, false, false, w);
            && FiresFree(s, 0, EPOLLIN + EPOLLOUT, false, false, w) && !Inv(t, w) && t.pending == -1
  {
    var a, b, d := Add(0, Read, 1, false), Add(0, Write, 2, false), Del(0, Read, false);
    var s1 := AddStep(Init(), 0, Read, 1, false, w);
    var s2 := AddStep(s1, 0, Write, 2, false, w);
    StaleSteps(w);
    Extend([], a, w);
    assert [] + [a] == [a];
    Extend([a], b, w);
    assert [a] + [b] == [a, b];
    Extend([a, b], d, w);
    assert [a, b] + [d] == [a, b, d];
    RunKeepsInv([a, b, d], w);
    DispatchIff(DelStep(s2, 0, Read, false, w), 0, EPOLLIN + EPOLLOUT, false, w);
  }

  /** The states of that run. */
  lemma StaleSteps(w: Mask)
    requires Good(w)
    ensures var s1 := AddStep(Init(), 0, Read, 1, false, w);
            var s2 := AddStep(s1, 0, Write, 2, false, w);
            var s3 := DelStep(s2, 0, Read, false, w);
            && 0 < |s1.store| && s1.store[0] == FdContext(0, READ, Waiting(1), Free)
            && 0 < |s2.store| && s2.store[0] == FdContext(0, READ + w, Waiting(1), Waiting(2))
            && 0 < |s3.store| && s3.store[0] == FdContext(0, w, Free, Waiting(2))
            && !BatchOk(w, EPOLLIN + EPOLLOUT, false, w)
            && DispatchStep(s3, 0, EPOLLIN + EPOLLOUT, false, false, w).pending == -1
  {
    var s1 := AddStep(Init(), 0, Read, 1, false, w);
    var s2 := AddStep(s1, 0, Write, 2, false, w);
    var s3 := DelStep(s2, 0, Read, false, w);
    assert s1.store[0].events == READ && 0 in s1.store[0].events && 0 in s1.kernel;
    assert s2.store[0].events == READ + w && 0 in s2.store[0].events * READ && 0 in s2.kernel;
    assert READ + w - READ == w;
    assert s3.store[0].events == w && 0 in s3.kernel && s3.pending == 1;
    NamesBoth(w);
  }

  lemma NamesBoth(w: Mask)
    requires Good(w)
    ensures RealEvents(w, EPOLLIN + EPOLLOUT, false, w) == READ + w
    ensures w * (READ + w) != {} && (READ + w) * READ != {} && (READ + w) * w != {} && !(READ + w <= w)
  {
    assert 0 in (EPOLLIN + EPOLLOUT) * EPOLLIN && 2 in (EPOLLIN + EPOLLOUT) * EPOLLOUT;
    assert 0 in READ + w && 0 !in w;
    var b :| b in w;
    assert b in w * (READ + w) && b in (READ + w) * w && 0 in (READ + w) * READ;
  }

  /** Adding the read event of descriptor 0 twice: the kernel accepts it, and the first callback is
      gone without having been scheduled or deleted. */
  lemma SecondAddFails(w: Mask)
    requires Good(w)
    ensures var ops := [Add(0, Read, 1, false)];
            var s := Run(Init(), ops, w);
            && PossibleRun(Init(), ops, w) && AllowedRun(Init(), ops, w) && Inv(s, w) && 0 < |s.store|
            && !AddFails(s, 0, false) && !Inv(AddStep(s, 0, Read, 2, false, w), w)
  {
    var a := Add(0, Read, 1, false);
    var s := AddStep(Init(), 0, Read, 1, false, w);
    Extend([], a, w);
    assert [] + [a] == [a];
    RunKeepsInv([a], w);
    assert 0 in s.store[0].events * READ && 0 in s.kernel;
    AddIff(s, 0, Read, 2, w);
  }

  // ---------------------------------------------------------------- the counter

  /** When the counter is zero the kernel watches nothing, and every callback ever added was either
      scheduled or deleted. */
  lemma NothingPending(s: State, w: Mask)
    requires Good(w) && Inv(s, w)
    ensures s.pending == 0 <==> s.kernel == map[]
    ensures s.pending == 0 ==> s.added == multiset(s.scheduled) + s.deleted
  {
    NoneWaiting(s.store, |s.store|);
    forall fd | fd in s.kernel
      ensures s.pending > 0
    {
      assert Watches(s, fd);
      assert ContextOk(s.store[s.kernel[fd].ref], w);
    }
    if s.pending == 0 {
      forall x: nat
        ensures s.added[x] == (multiset(s.scheduled) + s.deleted)[x]
      {
        OneOfMany(s.store, |s.store|, x);
      }
    } else {
      var r: nat :| r < |s.store| && Held(s.store[r], Every) != 0;
      RegisteredIffWaiting(s.store[r], Read, w);
      RegisteredIffWaiting(s.store[r], Write, w);
      assert Watched(s, r);
    }
  }

  lemma {:induction false} NoneWaiting(store: seq<FdContext>, n: nat)
    requires n <= |store|
    ensures WaitingIn(store, n, Every) == 0 <==> forall r | 0 <= r < n :: Held(store[r], Every) == 0
  {
    if n > 0 {
      NoneWaiting(store, n - 1);
    }
  }

  lemma {:induction false} OneOfMany(store: seq<FdContext>, n: nat, x: nat)
    requires n <= |store|
    ensures WaitingIn(store, n, Only(x)) <= WaitingIn(store, n, Every)
  {
    if n > 0 {
      OneOfMany(store, n - 1, x);
    }
  }

  /** The condition under which `triggerEvent` reports an unregistered event and gives up. */
  predicate Complains(c: FdContext, k: Kind, w: Mask) { c.events * Bits(k, w) != {} }

  /** The complaint is the wrong way round: in a reachable state it is raised exactly when the
      event is registered, with a callback to schedule. */
  lemma ComplaintIff(s: State, ref: Ref, k: Kind, w: Mask)
    requires Good(w) && Inv(s, w) && ref < |s.store|
    ensures Complains(s.store[ref], k, w) <==> SlotOf(s.store[ref], k).Waiting?
  {
    RegisteredIffWaiting(s.store[ref], k, w);
  }
}
