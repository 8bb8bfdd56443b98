/**
 The I/O manager's event tables as objects: contexts changed in place, and a table of pointers to
 them.  Every critical section is one protocol step; `AddEvent`, `DelEvent`, `CancelEvent` and
 `CancelAll` string their sections together as one thread does, and `Run` interleaves the sections
 of any number of threads.
 */
module IOManagers {
  import P = EventProtocol

  class FdContext {
    const fd: nat
    /** Its place among all contexts ever made. */
    ghost const ref: P.Ref
    var events: P.Mask
    var read: P.Slot
    var write: P.Slot

    constructor (fd: nat, ghost ref: P.Ref)
      ensures this.ref == ref && Value() == P.Idle(fd)
    {
      this.fd, this.ref := fd, ref;
      events, read, write := {}, P.Free, P.Free;
    }

    function Value(): P.FdContext
      reads this
    {
      P.FdContext(fd, events, read, write)
    }

    method SetSlot(k: P.Kind, slot: P.Slot)
      modifies this`read, this`write
      ensures Value() == P.WithSlot(old(Value()), k, slot)
    {
      match k
      case Read => read := slot;
      case Write => write := slot;
    }

    /** Forgets the event and hands its callback over to be scheduled. */
    method TriggerEvent(k: P.Kind, writeMask: P.Mask) returns (slot: P.Slot)
      modifies this
      ensures Value() == P.Trigger(old(Value()), k, writeMask)
      ensures slot == P.SlotOf(old(Value()), k)
    {
      slot := if k.Read? then read else write;
      events := events - P.Bits(k, writeMask);
      SetSlot(k, P.Free);
    }

    /** Notes one more event and its callback. */
    method Register(k: P.Kind, cb: nat, writeMask: P.Mask)
      modifies this
      ensures Value() == P.Registered(old(Value()), k, cb, writeMask)
    {
      events := events + P.Bits(k, writeMask);
      SetSlot(k, P.Waiting(cb));
    }
  }

  /** What the kernel keeps for one descriptor. */
  datatype Entry = Entry(mask: P.Mask, context: FdContext)

  /** One entry of the array `epoll_wait` fills: the tickle pipe, or the pointer registered for a
      descriptor with the events that are ready; `refused` says whether the `epoll_ctl` call that
      follows fails. */
  datatype Report = Tickle | Ready(context: FdContext, reported: P.Mask, hangup: bool, refused: bool)

  /** The dispatches a batch stands for, in order. */
  ghost function OpsOf(batch: seq<Report>): seq<P.Op> {
    if batch == [] then []
    else
      var last := batch[|batch| - 1];
      OpsOf(batch[..|batch| - 1]) +
      if last.Tickle? then [] else [P.Dispatch(last.context.ref, last.reported, last.hangup, last.refused)]
  }

  lemma OpsOfSnoc(batch: seq<Report>, i: nat)
    requires i < |batch|
    ensures OpsOf(batch[..i + 1]) ==
            OpsOf(batch[..i]) +
            if batch[i].Tickle? then []
            else [P.Dispatch(batch[i].context.ref, batch[i].reported, batch[i].hangup, batch[i].refused)]
  {
    var next := batch[..i + 1];
    assert next[..|next| - 1] == batch[..i] && next[|next| - 1] == batch[i];
  }

  lemma BatchStep(s: P.State, start: P.State, batch: seq<Report>, i: nat, w: P.Mask)
    requires i < |batch| && s == P.Run(start, OpsOf(batch[..i]), w)
    requires batch[i].Ready? ==> batch[i].context.ref < |s.store|
    ensures P.Run(start, OpsOf(batch[..i + 1]), w) ==
            if batch[i].Tickle? then s
            else P.DispatchStep(s, batch[i].context.ref, batch[i].reported, batch[i].hangup, batch[i].refused, w)
  {
    var ops := OpsOf(batch[..i]);
    OpsOfSnoc(batch, i);
    match batch[i]
    case Tickle => assert ops + [] == ops;
    case Ready(c, reported, hangup, refused) => P.RunSnoc(start, ops, P.Dispatch(c.ref, reported, hangup, refused), w);
  }

  class IOManager {
    const writeMask: P.Mask
    /** The table: a context for each descriptor below its length. */
    var contexts: seq<FdContext>
    /** Every context ever made; one that falls out of the table lives on in other threads' hands
        and in the kernel. The source keeps no such list. */
    var made: seq<FdContext>
    var kernel: map<nat, Entry>
    var pending: int
    /** Callbacks handed to the scheduler, oldest first. */
    var queue: seq<nat>

    ghost var view: P.State

    ghost predicate Mirrors(store: seq<P.FdContext>)
      reads `made, made
    {
      && |made| == |store|
      && forall r | 0 <= r < |made| :: made[r].ref == r && made[r].Value() == store[r]
    }

    ghost predicate TableMirrors(table: seq<P.Ref>)
      reads `made, `contexts
    {
      && |contexts| == |table|
      && forall i | 0 <= i < |contexts| :: table[i] < |made| && contexts[i] == made[table[i]]
    }

    ghost predicate KernelMirrors(interests: map<nat, P.Interest>)
      reads `made, `kernel
    {
      && kernel.Keys == interests.Keys
      && forall fd | fd in kernel ::
           interests[fd].ref < |made| && kernel[fd] == Entry(interests[fd].mask, made[interests[fd].ref])
    }

    ghost predicate SizesOk()
      reads `contexts, `view
    {
      |contexts| in view.sizes && forall z | z in view.sizes :: z >= P.INITIAL_SIZE
    }

    ghost predicate Valid()
      reads this, made
    {
      && Mirrors(view.store) && TableMirrors(view.table) && KernelMirrors(view.kernel) && SizesOk()
      && pending == view.pending && queue == view.scheduled
    }

    /** A pointer this manager has handed out. */
    ghost predicate Known(c: FdContext)
      reads `made
    {
      c.ref < |made| && made[c.ref] == c
    }

    constructor (writeMask: P.Mask)
      ensures fresh(made)
      ensures Valid() && view == P.Init() && this.writeMask == writeMask
    {
      this.writeMask := writeMask;
      contexts, made, kernel, pending, queue := [], [], map[], 0, [];
      view := P.State([], [], map[], 0, {}, multiset{}, [], multiset{});
      new;
      ContextResize(P.INITIAL_SIZE);
    }

    // -------------------------------------------------------------- the table

    /** Makes the table `size` long: contexts in it are kept while there is room, new places get new
        contexts. */
    method ContextResize(size: nat)
      requires Mirrors(view.store) && TableMirrors(view.table) && KernelMirrors(view.kernel)
      modifies this`contexts, this`made, this`view
      ensures forall r | |old(made)| <= r < |made| :: fresh(made[r])
      ensures old(made) <= made && kernel == old(kernel)
      ensures Mirrors(view.store) && TableMirrors(view.table) && KernelMirrors(view.kernel)
      ensures view == P.Resized(old(view), size)
    {
      ghost var grown := P.Resized(view, size);
      if size <= |contexts| {
        contexts := contexts[..size];
      } else {
        assert grown.store[..|made|] == view.store && grown.table[..|contexts|] == view.table;
        Fill(size, grown.store, grown.table);
      }
      view := grown;
    }

    /** Puts new contexts into the new places. */
    method Fill(size: nat, ghost store: seq<P.FdContext>, ghost table: seq<P.Ref>)
      requires |contexts| <= size == |table| && |store| == |made| + size - |contexts|
      requires Mirrors(store[..|made|]) && TableMirrors(table[..|contexts|]) && KernelMirrors(view.kernel)
      requires forall r | |made| <= r < |store| :: store[r] == P.Idle(|contexts| + r - |made|)
      requires forall i | |contexts| <= i < size :: table[i] == |made| + i - |contexts|
      modifies this`contexts, this`made
      ensures forall r | |old(made)| <= r < |made| :: fresh(made[r])
      ensures old(made) <= made
      ensures Mirrors(store) && TableMirrors(table) && KernelMirrors(view.kernel)
    {
      for i := |contexts| to size
        invariant |contexts| == i && |made| == |old(made)| + i - |old(contexts)|
        invariant forall r | |old(made)| <= r < |made| :: fresh(made[r])
        invariant old(made) <= made
        invariant Mirrors(store[..|made|])
        invariant TableMirrors(table[..i])
        invariant KernelMirrors(view.kernel)
      {
        assert store[..|made| + 1] == store[..|made|] + [P.Idle(i)];
        assert table[..i + 1] == table[..i] + [|made|];
        AppendContext(store[..|made|], table[..i]);
      }
      assert store[..|made|] == store && table[..size] == table;
    }

    method AppendContext(ghost store: seq<P.FdContext>, ghost table: seq<P.Ref>)
      requires Mirrors(store) && TableMirrors(table) && KernelMirrors(view.kernel)
      modifies this`contexts, this`made
      ensures |made| == |old(made)| + 1 && old(made) <= made && fresh(made[|old(made)|])
      ensures |contexts| == |old(contexts)| + 1
      ensures Mirrors(store + [P.Idle(|old(contexts)|)]) && TableMirrors(table + [|old(made)|])
      ensures KernelMirrors(view.kernel)
    {
      var c := new FdContext(|contexts|, |made|);
      contexts := contexts + [c];
      made := made + [c];
    }

    /** The size of the table, read without the lock. */
    method TableSize() returns (n: nat)
      requires Valid()
      ensures n == |view.table| && n in view.sizes
    {
      n := |contexts|;
    }

    /** The part of `addEvent` under the table's lock that makes room, if the size read before said
        there was none. */
    method MakeRoom(fd: nat, seen: nat)
      requires Valid() && seen in view.sizes
      modifies this`contexts, this`made, this`view
      ensures forall r | |old(made)| <= r < |made| :: fresh(made[r])
      ensures old(made) <= made
      ensures Valid() && view == P.GrowStep(old(view), fd, seen)
    {
      if seen <= fd {
        assert P.Room(fd) >= P.INITIAL_SIZE;
        ContextResize(P.Room(fd));
      }
    }

    /** Makes room and looks the context up. A descriptor the earlier size allowed has to be in the
        table still, because the source does not check again. */
    method ContextFor(fd: nat, seen: nat) returns (c: FdContext)
      requires Valid() && seen in view.sizes && (seen > fd ==> fd < |contexts|)
      modifies this`contexts, this`made, this`view
      ensures forall r | |old(made)| <= r < |made| :: fresh(made[r])
      ensures old(made) <= made
      ensures Valid() && view == P.GrowStep(old(view), fd, seen)
      ensures fd < |view.table| && Known(c) && c.ref == view.table[fd]
    {
      MakeRoom(fd, seen);
      assert seen <= fd ==> P.Room(fd) > fd;
      c := contexts[fd];
    }

    /** The lookup of the other operations: nothing for a descriptor beyond the table. */
    method FindContext(fd: nat) returns (c: FdContext?)
      requires Valid()
      ensures c == null <==> |view.table| <= fd
      ensures c != null ==> Known(c) && c.ref == view.table[fd]
    {
      c := if |contexts| <= fd then null else contexts[fd];
    }

    // -------------------------------------------------------------- work on one context

    /** `epoll_ctl`, which may refuse for reasons of its own. */
    method EpollCtl(op: P.CtlOp, c: FdContext, mask: P.Mask, refused: bool) returns (failed: bool)
      requires Valid() && Known(c)
      modifies this`kernel, this`view
      ensures failed <==> P.CtlFails(old(view).kernel, op, c.fd, refused)
      ensures var kernel := P.CtlEffect(old(view).kernel, op, c.fd, P.Interest(mask, c.ref));
              Valid() && view == if failed then old(view) else old(view).(kernel := kernel)
    {
      failed := refused || (if op.CtlAdd? then c.fd in kernel else c.fd !in kernel);
      if !failed {
        kernel := if op.CtlDel? then kernel - {c.fd} else kernel[c.fd := Entry(mask, c)];
        view := view.(kernel := P.CtlEffect(view.kernel, op, c.fd, P.Interest(mask, c.ref)));
      }
    }

    method Count(change: int)
      requires Valid()
      modifies this`pending, this`view
      ensures Valid() && view == old(view).(pending := old(view).pending + change)
    {
      pending := pending + change;
      view := view.(pending := view.pending + change);
    }

    /** Notes the event and its callback in the context. */
    method Note(c: FdContext, k: P.Kind, cb: nat)
      requires Valid() && Known(c)
      modifies this`view, c
      ensures Valid()
      ensures var was := old(view).store[c.ref];
              view == old(view).(store := old(view).store[c.ref := P.Registered(was, k, cb, writeMask)],
                                 added := old(view).added + multiset{cb})
    {
      c.Register(k, cb, writeMask);
      view := view.(store := view.store[c.ref := c.Value()], added := view.added + multiset{cb});
    }

    /** Forgets the event and its callback. */
    method Discard(c: FdContext, k: P.Kind)
      requires Valid() && Known(c)
      modifies this`view, c
      ensures Valid()
      ensures var was := old(view).store[c.ref];
              view == old(view).(store := old(view).store[c.ref := P.Trigger(was, k, writeMask)],
                                 deleted := old(view).deleted + multiset(P.Tags(P.SlotOf(was, k))))
    {
      var slot := c.TriggerEvent(k, writeMask);
      view := view.(store := view.store[c.ref := c.Value()], deleted := view.deleted + multiset(P.Tags(slot)));
    }

    /** Triggers the event and puts its callback into the scheduler's queue. */
    method Fire(c: FdContext, k: P.Kind)
      requires Valid() && Known(c)
      modifies this`queue, this`view, c
      ensures Valid()
      ensures var was := old(view).store[c.ref];
              view == old(view).(store := old(view).store[c.ref := P.Trigger(was, k, writeMask)],
                                 scheduled := old(view).scheduled + P.Tags(P.SlotOf(was, k)))
    {
      var slot := c.TriggerEvent(k, writeMask);
      if slot.Waiting? {
        queue := queue + [slot.tag];
      }
      view := view.(store := view.store[c.ref := c.Value()], scheduled := view.scheduled + P.Tags(slot));
    }

    /** Triggers the event and counts it down. */
    method Release(c: FdContext, k: P.Kind)
      requires Valid() && Known(c)
      modifies this`pending, this`queue, this`view, c
      ensures var was := old(view).store[c.ref];
              view == old(view).(store := old(view).store[c.ref := P.Trigger(was, k, writeMask)],
                                 pending := old(view).pending - 1,
                                 scheduled := old(view).scheduled + P.Tags(P.SlotOf(was, k)))
      ensures Valid()
    {
      Fire(c, k);
      Count(-1);
    }

    /** Counts the event down and forgets it. */
    method Remove(c: FdContext, k: P.Kind)
      requires Valid() && Known(c)
      modifies this`pending, this`view, c
      ensures var was := old(view).store[c.ref];
              view == old(view).(store := old(view).store[c.ref := P.Trigger(was, k, writeMask)],
                                 pending := old(view).pending - 1,
                                 deleted := old(view).deleted + multiset(P.Tags(P.SlotOf(was, k))))
      ensures Valid()
    {
      Count(-1);
      Discard(c, k);
    }

    /** Counts the event and notes it. */
    method Enter(c: FdContext, k: P.Kind, cb: nat)
      requires Valid() && Known(c)
      modifies this`pending, this`view, c
      ensures var was := old(view).store[c.ref];
              view == old(view).(store := old(view).store[c.ref := P.Registered(was, k, cb, writeMask)],
                                 pending := old(view).pending + 1,
                                 added := old(view).added + multiset{cb})
      ensures Valid()
    {
      Count(1);
      Note(c, k, cb);
    }

    /** One event of one descriptor, if it is among `which`: its callback goes to the scheduler and
        the counter goes down. */
    method FireIf(c: FdContext, k: P.Kind, which: P.Mask)
      requires Valid() && Known(c)
      modifies this`pending, this`queue, this`view, c
      ensures Valid() && view == P.TriggerIf(old(view), c.ref, k, which, writeMask)
    {
      if which * P.Bits(k, writeMask) != {} {
        Release(c, k);
      }
    }

    /** Asks the kernel to watch for one more event. */
    method Widen(c: FdContext, k: P.Kind, refused: bool) returns (failed: bool)
      requires Valid() && Known(c)
      modifies this`kernel, this`view
      ensures failed <==> P.AddFails(old(view), c.ref, refused)
      ensures var was := old(view).store[c.ref];
              view == if failed then old(view) else old(view).(kernel :=
                P.CtlEffect(old(view).kernel, P.AddOp(was.events), was.fd,
                            P.Interest(was.events + P.Bits(k, writeMask), c.ref)))
      ensures Valid()
    {
      var op := if c.events != {} then P.CtlMod else P.CtlAdd;
      failed := EpollCtl(op, c, c.events + P.Bits(k, writeMask), refused);
    }

    /** The part of `addEvent` under the context's lock. */
    method AddTo(c: FdContext, k: P.Kind, cb: nat, refused: bool) returns (rt: int)
      requires Valid() && Known(c)
      modifies this`kernel, this`pending, this`view, c
      ensures view == P.AddStep(old(view), c.ref, k, cb, refused, writeMask)
      ensures rt == if P.AddFails(old(view), c.ref, refused) then -1 else 0
      ensures Valid()
    {
      var failed := Widen(c, k, refused);
      if failed {
        return -1;
      }
      Enter(c, k, cb);
      return 0;
    }

    /** The steps `delEvent` and `cancelEvent` share: the event must be registered, and the kernel
        must agree to drop it. */
    method Narrow(c: FdContext, k: P.Kind, refused: bool) returns (ok: bool)
      requires Valid() && Known(c)
      modifies this`kernel, this`view
      ensures ok <==> P.Removes(old(view), c.ref, k, refused, writeMask)
      ensures var left := old(view).store[c.ref].events - P.Bits(k, writeMask);
              Valid() && view == if ok then old(view).(kernel := P.Narrowed(old(view), c.ref, left)) else old(view)
    {
      if c.events * P.Bits(k, writeMask) == {} {
        return false;
      }
      var left := c.events - P.Bits(k, writeMask);
      var op := if left != {} then P.CtlMod else P.CtlDel;
      var failed := EpollCtl(op, c, left, refused);
      return !failed;
    }

    method DelFrom(c: FdContext, k: P.Kind, refused: bool) returns (ok: bool)
      requires Valid() && Known(c)
      modifies this`kernel, this`pending, this`view, c
      ensures view == P.DelStep(old(view), c.ref, k, refused, writeMask)
      ensures ok <==> P.Removes(old(view), c.ref, k, refused, writeMask)
      ensures Valid()
    {
      ok := Narrow(c, k, refused);
      if ok {
        Remove(c, k);
      }
    }

    method CancelIn(c: FdContext, k: P.Kind, refused: bool) returns (ok: bool)
      requires Valid() && Known(c)
      modifies this`kernel, this`pending, this`queue, this`view, c
      ensures view == P.CancelStep(old(view), c.ref, k, refused, writeMask)
      ensures ok <==> P.Removes(old(view), c.ref, k, refused, writeMask)
      ensures Valid()
    {
      ok := Narrow(c, k, refused);
      if ok {
        Release(c, k);
      }
    }

    method CancelAllIn(c: FdContext, refused: bool) returns (ok: bool)
      requires Valid() && Known(c)
      modifies this`kernel, this`pending, this`queue, this`view, c
      ensures view == P.CancelAllStep(old(view), c.ref, refused, writeMask)
      ensures ok <==> P.CancelsAll(old(view), c.ref, refused)
      ensures Valid()
    {
      if c.events == {} {
        return false;
      }
      var failed := EpollCtl(P.CtlDel, c, {}, refused);
      if failed {
        return false;
      }
      FireIf(c, P.Read, c.events);
      FireIf(c, P.Write, c.events);
      return true;
    }

    /** The body of the event loop for one reported pointer. */
    method Dispatch(r: Report)
      requires Valid() && r.Ready? && Known(r.context)
      modifies this`kernel, this`pending, this`queue, this`view, r.context
      ensures view == P.DispatchStep(old(view), r.context.ref, r.reported, r.hangup, r.refused, writeMask)
      ensures Valid()
    {
      var c := r.context;
      var seen := r.reported;
      if r.hangup {
        seen := seen + (P.EPOLLIN + P.EPOLLOUT) * c.events;
      }
      var realEvents: P.Mask := {};
      if seen * P.EPOLLIN != {} {
        realEvents := realEvents + P.READ;
      }
      if seen * P.EPOLLOUT != {} {
        realEvents := realEvents + writeMask;
      }
      assert realEvents == P.RealEvents(c.events, r.reported, r.hangup, writeMask);
      Answer(c, realEvents, r.refused);
    }

    /** Takes the events that have happened out of the kernel's list and triggers them. */
    method Answer(c: FdContext, realEvents: P.Mask, refused: bool)
      requires Valid() && Known(c)
      modifies this`kernel, this`pending, this`queue, this`view, c
      ensures view == P.AnswerStep(old(view), c.ref, realEvents, refused, writeMask)
      ensures Valid()
    {
      if c.events * realEvents == {} {
        return;
      }
      var left := c.events - realEvents;
      var op := if left != {} then P.CtlMod else P.CtlDel;
      var failed := EpollCtl(op, c, left, refused);
      if failed {
        return;
      }
      FireIf(c, P.Read, realEvents);
      FireIf(c, P.Write, realEvents);
    }

    // -------------------------------------------------------------- whole calls and runs

    /** A whole `addEvent` with no other thread in between: the size it reads is the table's. */
    method AddEvent(fd: nat, k: P.Kind, cb: nat, refused: bool) returns (rt: int)
      requires Valid()
      modifies this`contexts, this`made, this`kernel, this`pending, this`view, made
      ensures forall r | |old(made)| <= r < |made| :: fresh(made[r])
      ensures old(made) <= made
      ensures var s := P.GrowStep(old(view), fd, |old(view).table|);
              && fd < |s.table| && s.table[fd] < |s.store|
              && Valid() && view == P.AddStep(s, s.table[fd], k, cb, refused, writeMask)
              && rt == if P.AddFails(s, s.table[fd], refused) then -1 else 0
    {
      var seen := TableSize();
      var c := ContextFor(fd, seen);
      rt := AddTo(c, k, cb, refused);
    }

    method DelEvent(fd: nat, k: P.Kind, refused: bool) returns (ok: bool)
      requires Valid()
      modifies this`kernel, this`pending, this`view, made
      ensures Valid()
      ensures fd >= |old(view).table| ==> view == old(view) && !ok
      ensures fd < |old(view).table| ==>
                && view == P.DelStep(old(view), old(view).table[fd], k, refused, writeMask)
                && (ok <==> P.Removes(old(view), old(view).table[fd], k, refused, writeMask))
    {
      var c := FindContext(fd);
      if c == null {
        return false;
      }
      ok := DelFrom(c, k, refused);
    }

    /** The source reads the table before it checks the descriptor, so the caller has to know that
        the descriptor is in the table. */
    method CancelEvent(fd: nat, k: P.Kind, refused: bool) returns (ok: bool)
      requires Valid() && fd < |contexts|
      modifies this`kernel, this`pending, this`queue, this`view, made
      ensures Valid() && view == P.CancelStep(old(view), old(view).table[fd], k, refused, writeMask)
      ensures ok <==> P.Removes(old(view), old(view).table[fd], k, refused, writeMask)
    {
      var _ := contexts[fd];
      var c := FindContext(fd);
      if c == null {
        return false;
      }
      ok := CancelIn(c, k, refused);
    }

    method CancelAll(fd: nat, refused: bool) returns (ok: bool)
      requires Valid()
      modifies this`kernel, this`pending, this`queue, this`view, made
      ensures Valid()
      ensures fd >= |old(view).table| ==> view == old(view) && !ok
      ensures fd < |old(view).table| ==>
                && view == P.CancelAllStep(old(view), old(view).table[fd], refused, writeMask)
                && (ok <==> P.CancelsAll(old(view), old(view).table[fd], refused))
    {
      var c := FindContext(fd);
      if c == null {
        return false;
      }
      ok := CancelAllIn(c, refused);
    }

    /** One batch of ready descriptors, as the event loop goes through it. */
    method DispatchBatch(batch: seq<Report>)
      requires Valid()
      requires forall i | 0 <= i < |batch| && batch[i].Ready? :: Known(batch[i].context)
      modifies this`kernel, this`pending, this`queue, this`view, made
      ensures Valid() && view == P.Run(old(view), OpsOf(batch), writeMask)
    {
      for i := 0 to |batch|
        invariant Valid() && view == P.Run(old(view), OpsOf(batch[..i]), writeMask)
      {
        BatchStep(view, old(view), batch, i, writeMask);
        if batch[i].Ready? {
          Dispatch(batch[i]);
        }
      }
      assert batch[..|batch|] == batch;
    }

    /** The next section of whichever thread moves next. */
    method Perform(op: P.Op)
      requires Valid() && P.Possible(view, op)
      modifies this, made
      ensures forall r | 0 <= r < |made| && made[r] !in old(made) :: fresh(made[r])
      ensures Valid() && view == P.DoOp(old(view), op, writeMask)
    {
      match op
      case Grow(fd, seen) => MakeRoom(fd, seen);
      case Add(ref, k, tag, refused) => var _ := AddTo(made[ref], k, tag, refused);
      case Del(ref, k, refused) => var _ := DelFrom(made[ref], k, refused);
      case Cancel(ref, k, refused) => var _ := CancelIn(made[ref], k, refused);
      case CancelAll(ref, refused) => var _ := CancelAllIn(made[ref], refused);
      case Dispatch(ref, reported, hangup, refused) => Dispatch(Ready(made[ref], reported, hangup, refused));
    }

    /** Any interleaving of the sections of callers and event loop. */
    method Run(ops: seq<P.Op>)
      requires Valid() && P.PossibleRun(view, ops, writeMask)
      modifies this, made
      ensures forall r | 0 <= r < |made| && made[r] !in old(made) :: fresh(made[r])
      ensures Valid() && view == P.Run(old(view), ops, writeMask)
    {
      if ops == [] {
        return;
      }
      Run(ops[..|ops| - 1]);
      Perform(ops[|ops| - 1]);
    }
  }
}
