/**
 Event registration in the I/O manager as a step machine.  A mask is a set of bit numbers, and
 the mask of the write event is a parameter, because the value the source gives it overlaps
 the read event.  Assertions are taken as compiled out: each one is either a condition on the
 caller here, or shown to fail or to hold.

 Every operation of the source first looks the descriptor's context up under one lock and then
 works on it under another, and `addEvent` reads the size of the table before it takes any lock.
 So a step that works on a context names a context that was looked up at any earlier time, and a
 step that makes room names any size the table has had.
 */
module EventProtocol {

  type Mask = set<nat>

  const READ: Mask := {0}           // 0x1, like EPOLLIN
  const EPOLLIN: Mask := {0}
  const EPOLLOUT: Mask := {2}       // 0x4
  const SOURCE_WRITE: Mask := {0, 1} // 0x3, the value in the source

  datatype Kind = Read | Write

  function Bits(k: Kind, w: Mask): Mask { if k.Read? then READ else w }

  /** The callback registered for one event of one descriptor. */
  datatype Slot = Free | Waiting(tag: nat)

  datatype FdContext = FdContext(fd: nat, events: Mask, read: Slot, write: Slot)

  /** A pointer to a context: its place among all contexts ever made. */
  type Ref = nat

  /** What the kernel keeps for one descriptor: the events, and the pointer it gives back. */
  datatype Interest = Interest(mask: Mask, ref: Ref)

  datatype CtlOp = CtlAdd | CtlMod | CtlDel

  /** `store` holds every context ever made, `table` is the vector of pointers to them, `kernel` the
      epoll interest list. `sizes` are the sizes the table has had; `added`, `scheduled` (in order)
      and `deleted` record what became of each registered callback. */
  datatype State = State(
    store: seq<FdContext>,
    table: seq<Ref>,
    kernel: map<nat, Interest>,
    pending: int,
    sizes: set<nat>,
    added: multiset<nat>,
    scheduled: seq<nat>,
    deleted: multiset<nat>
  )

  function Idle(fd: nat): FdContext { FdContext(fd, {}, Free, Free) }

  const INITIAL_SIZE: nat := 32

  function Init(): State {
    Resized(State([], [], map[], 0, {}, multiset{}, [], multiset{}), INITIAL_SIZE)
  }

  // ---------------------------------------------------------------- the table

  /** `contextResize`: a longer table gets new contexts, a shorter one loses its last pointers. */
  function Resized(s: State, size: nat): (t: State)
    ensures |t.table| == size && s.store <= t.store && t.sizes == s.sizes + {size}
    ensures forall r | |s.store| <= r < |t.store| :: t.store[r] == Idle(|s.table| + r - |s.store|)
    ensures forall i | 0 <= i < size :: t.table[i] == if i < |s.table| then s.table[i] else |s.store| + i - |s.table|
    ensures |t.store| == |s.store| + if size <= |s.table| then 0 else size - |s.table|
  {
    var n := |s.table|;
    if size <= n then s.(table := s.table[..size], sizes := s.sizes + {size})
    else
      s.(store := s.store + seq(size - n, i requires i >= 0 => Idle(n + i)),
         table := s.table + seq(size - n, i requires i >= 0 => |s.store| + i),
         sizes := s.sizes + {size})
  }

  /** The room `addEvent` makes: one and a half times the descriptor. */
  function Room(fd: nat): nat { fd * 3 / 2 }

  /** The locked part of `addEvent`'s lookup; `seen` is the size read before the lock was taken. */
  function GrowStep(s: State, fd: nat, seen: nat): State {
    if seen > fd then s else Resized(s, Room(fd))
  }

  // ---------------------------------------------------------------- pieces

  /** `epoll_ctl` rejects an ADD of a known descriptor and a MOD or DEL of an unknown one. */
  predicate CtlMatches(kernel: map<nat, Interest>, op: CtlOp, fd: nat) {
    if op.CtlAdd? then fd !in kernel else fd in kernel
  }

  predicate CtlFails(kernel: map<nat, Interest>, op: CtlOp, fd: nat, refused: bool) {
    refused || !CtlMatches(kernel, op, fd)
  }

  function CtlEffect(kernel: map<nat, Interest>, op: CtlOp, fd: nat, interest: Interest): map<nat, Interest> {
    if op.CtlDel? then kernel - {fd} else kernel[fd := interest]
  }

  function AddOp(events: Mask): CtlOp { if events != {} then CtlMod else CtlAdd }

  function RemoveOp(left: Mask): CtlOp { if left != {} then CtlMod else CtlDel }

  function SlotOf(c: FdContext, k: Kind): Slot { if k.Read? then c.read else c.write }

  function WithSlot(c: FdContext, k: Kind, slot: Slot): FdContext {
    if k.Read? then c.(read := slot) else c.(write := slot)
  }

  /** The callback waiting in a slot, if there is one. */
  function Tags(slot: Slot): seq<nat> { if slot.Waiting? then [slot.tag] else [] }

  /** `triggerEvent`: forget the event and schedule its callback. */
  function Trigger(c: FdContext, k: Kind, w: Mask): FdContext {
    WithSlot(c.(events := c.events - Bits(k, w)), k, Free)
  }

  /** The context with one more event and its callback. */
  function Registered(c: FdContext, k: Kind, tag: nat, w: Mask): FdContext {
    WithSlot(c.(events := c.events + Bits(k, w)), k, Waiting(tag))
  }

  // ---------------------------------------------------------------- operations on one context

  /** Whether the kernel turns the addition down. */
  predicate AddFails(s: State, ref: Ref, refused: bool)
    requires ref < |s.store|
  {
    CtlFails(s.kernel, AddOp(s.store[ref].events), s.store[ref].fd, refused)
  }

  function AddStep(s: State, ref: Ref, k: Kind, tag: nat, refused: bool, w: Mask): State
    requires ref < |s.store|
  {
    if AddFails(s, ref, refused) then s
    else
      var c := s.store[ref];
      s.(store := s.store[ref := Registered(c, k, tag, w)],
         kernel := CtlEffect(s.kernel, AddOp(c.events), c.fd, Interest(c.events + Bits(k, w), ref)),
         pending := s.pending + 1,
         added := s.added + multiset{tag})
  }

  /** Whether a removal gets past its early returns. */
  predicate Removes(s: State, ref: Ref, k: Kind, refused: bool, w: Mask)
    requires ref < |s.store|
  {
    var c := s.store[ref];
    c.events * Bits(k, w) != {} && !CtlFails(s.kernel, RemoveOp(c.events - Bits(k, w)), c.fd, refused)
  }

  /** The kernel's list once only `left` of the context's events are wanted. */
  function Narrowed(s: State, ref: Ref, left: Mask): map<nat, Interest>
    requires ref < |s.store|
  {
    CtlEffect(s.kernel, RemoveOp(left), s.store[ref].fd, Interest(left, ref))
  }

  function DelStep(s: State, ref: Ref, k: Kind, refused: bool, w: Mask): State
    requires ref < |s.store|
  {
    if !Removes(s, ref, k, refused, w) then s
    else
      var c := s.store[ref];
      s.(store := s.store[ref := Trigger(c, k, w)],
         kernel := Narrowed(s, ref, c.events - Bits(k, w)),
         pending := s.pending - 1,
         deleted := s.deleted + multiset(Tags(SlotOf(c, k))))
  }

  function CancelStep(s: State, ref: Ref, k: Kind, refused: bool, w: Mask): State
    requires ref < |s.store|
  {
    if !Removes(s, ref, k, refused, w) then s
    else
      var c := s.store[ref];
      s.(store := s.store[ref := Trigger(c, k, w)],
         kernel := Narrowed(s, ref, c.events - Bits(k, w)),
         pending := s.pending - 1,
         scheduled := s.scheduled + Tags(SlotOf(c, k)))
  }

  /** Triggers the event if it is among `which`, and lowers the count with it. */
  function TriggerIf(s: State, ref: Ref, k: Kind, which: Mask, w: Mask): (t: State)
    requires ref < |s.store|
    ensures |t.store| == |s.store|
  {
    if which * Bits(k, w) == {} then s
    else
      s.(store := s.store[ref := Trigger(s.store[ref], k, w)],
         pending := s.pending - 1,
         scheduled := s.scheduled + Tags(SlotOf(s.store[ref], k)))
  }

  predicate CancelsAll(s: State, ref: Ref, refused: bool)
    requires ref < |s.store|
  {
    s.store[ref].events != {} && !CtlFails(s.kernel, CtlDel, s.store[ref].fd, refused)
  }

  function CancelAllStep(s: State, ref: Ref, refused: bool, w: Mask): State
    requires ref < |s.store|
  {
    if !CancelsAll(s, ref, refused) then s
    else
      var t := TriggerIf(s.(kernel := s.kernel - {s.store[ref].fd}), ref, Read, s.store[ref].events, w);
      TriggerIf(t, ref, Write, t.store[ref].events, w)
  }

  /** What a reported event mask means for this descriptor; an error or hang-up stands for every
      event it has registered. */
  function RealEvents(events: Mask, reported: Mask, hangup: bool, w: Mask): Mask {
    var seen := if hangup then reported + (EPOLLIN + EPOLLOUT) * events else reported;
    (if seen * EPOLLIN != {} then READ else {}) + (if seen * EPOLLOUT != {} then w else {})
  }

  /** Whether a report gets as far as triggering something. */
  predicate Fires(s: State, ref: Ref, hit: Mask, refused: bool)
    requires ref < |s.store|
  {
    var c := s.store[ref];
    c.events * hit != {} && !CtlFails(s.kernel, RemoveOp(c.events - hit), c.fd, refused)
  }

  /** Triggers the events that have happened and leaves the others with the kernel. */
  function AnswerStep(s: State, ref: Ref, hit: Mask, refused: bool, w: Mask): State
    requires ref < |s.store|
  {
    if !Fires(s, ref, hit, refused) then s
    else
      var t := s.(kernel := Narrowed(s, ref, s.store[ref].events - hit));
      TriggerIf(TriggerIf(t, ref, Read, hit, w), ref, Write, hit, w)
  }

  function DispatchStep(s: State, ref: Ref, reported: Mask, hangup: bool, refused: bool, w: Mask): State
    requires ref < |s.store|
  {
    AnswerStep(s, ref, RealEvents(s.store[ref].events, reported, hangup, w), refused, w)
  }

  /** Whether the report triggers an event that has no callback, and with it no scheduler. */
  predicate FiresFree(s: State, ref: Ref, reported: Mask, hangup: bool, refused: bool, w: Mask)
    requires ref < |s.store|
  {
    var hit := RealEvents(s.store[ref].events, reported, hangup, w);
    && Fires(s, ref, hit, refused)
    && ((hit * READ != {} && s.store[ref].read.Free?) || (hit * w != {} && s.store[ref].write.Free?))
  }

  // ---------------------------------------------------------------- runs

  datatype Op =
    | Grow(fd: nat, seen: nat)
    | Add(ref: Ref, kind: Kind, tag: nat, refused: bool)
    | Del(ref: Ref, kind: Kind, refused: bool)
    | Cancel(ref: Ref, kind: Kind, refused: bool)
    | CancelAll(ref: Ref, refused: bool)
    | Dispatch(ref: Ref, reported: Mask, hangup: bool, refused: bool)

  /** A size was the table's at some time, and a pointer is to a context that was made. */
  predicate Possible(s: State, op: Op) {
    if op.Grow? then op.seen in s.sizes else op.ref < |s.store|
  }

  function DoOp(s: State, op: Op, w: Mask): State {
    if !Possible(s, op) then s
    else
      match op
      case Grow(fd, seen) => GrowStep(s, fd, seen)
      case Add(ref, k, tag, refused) => AddStep(s, ref, k, tag, refused, w)
      case Del(ref, k, refused) => DelStep(s, ref, k, refused, w)
      case Cancel(ref, k, refused) => CancelStep(s, ref, k, refused, w)
      case CancelAll(ref, refused) => CancelAllStep(s, ref, refused, w)
      case Dispatch(ref, reported, hangup, refused) => DispatchStep(s, ref, reported, hangup, refused, w)
  }

  function Run(s: State, ops: seq<Op>, w: Mask): State {
    if ops == [] then s else DoOp(Run(s, ops[..|ops| - 1], w), ops[|ops| - 1], w)
  }

  /** One more operation at the end of a run. */
  lemma RunSnoc(s: State, ops: seq<Op>, op: Op, w: Mask)
    ensures Run(s, ops + [op], w) == DoOp(Run(s, ops, w), op, w)
  {
    assert (ops + [op])[..|ops|] == ops;
  }

  predicate PossibleRun(s: State, ops: seq<Op>, w: Mask) {
    ops == [] ||
    (PossibleRun(s, ops[..|ops| - 1], w) && Possible(Run(s, ops[..|ops| - 1], w), ops[|ops| - 1]))
  }

  /** What the callers owe: no event is added twice, and a dispatched batch names only events that
      are registered. */
  predicate Allowed(s: State, op: Op, w: Mask) {
    Possible(s, op) ==>
      match op
      case Add(ref, k, _, _) => s.store[ref].events * Bits(k, w) == {}
      case Dispatch(ref, reported, hangup, _) => BatchOk(s.store[ref].events, reported, hangup, w)
      case _ => true
  }

  predicate BatchOk(events: Mask, reported: Mask, hangup: bool, w: Mask) {
    var hit := RealEvents(events, reported, hangup, w);
    events * hit == {} || hit <= events
  }

  predicate AllowedRun(s: State, ops: seq<Op>, w: Mask) {
    ops == [] ||
    (AllowedRun(s, ops[..|ops| - 1], w) && Allowed(Run(s, ops[..|ops| - 1], w), ops[|ops| - 1], w))
  }

  /** One more operation that is possible and allowed. */
  lemma Extend(ops: seq<Op>, op: Op, w: Mask)
    requires PossibleRun(Init(), ops, w) && AllowedRun(Init(), ops, w)
    requires Possible(Run(Init(), ops, w), op) && Allowed(Run(Init(), ops, w), op, w)
    ensures PossibleRun(Init(), ops + [op], w) && AllowedRun(Init(), ops + [op], w)
    ensures Run(Init(), ops + [op], w) == DoOp(Run(Init(), ops, w), op, w)
  {
    assert (ops + [op])[..|ops|] == ops;
  }
}
