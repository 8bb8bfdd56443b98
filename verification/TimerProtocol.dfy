/**
 The timer manager as a step machine.  Timers live in an ordered set of pointers whose order
 is read from the timers' own, changeable deadlines; an identifier stands for a timer's
 address.
 */
module TimerProtocol {
  import opened Machine
  import opened Sequences

  type Id = nat

  datatype Callback = NoCallback | Callback(tag: nat)

  datatype Rec = Rec(recurring: bool, ms: nat, next: nat, cb: Callback)

  /** `recs` holds every timer ever made, `queue` the ordered set. */
  datatype State = State(recs: map<Id, Rec>, queue: seq<Id>, tickled: bool, previous: nat)

  type Manager = s: State | Known(s.recs, s.queue) witness State(map[], [], false, 0)

  /** A callback handed out by an expiry, with the timer it belongs to. */
  datatype Fired = Fired(id: Id, cb: Callback)

  const FOREVER: nat := 0xFFFF_FFFF_FFFF_FFFF
  const HOUR: nat := 60 * 60 * 1000

  // ---------------------------------------------------------------- the ordered set

  /** What the comparator sees through a timer pointer. */
  datatype Key = Key(next: nat, id: Id)

  datatype Pointer = Null | To(key: Key)

  predicate Comparator(lhs: Pointer, rhs: Pointer) {
    if lhs.Null? && rhs.Null? then false
    else if lhs.Null? then true
    else if rhs.Null? then false
    else if lhs.key.next < rhs.key.next then true
    else if rhs.key.next < lhs.key.next then false
    else lhs.key.id < rhs.key.id
  }

  /** The comparator is a strict total order, as `std::set` demands: by deadline, then by address, and
      null in front. */
  lemma ComparatorIsStrictTotalOrder(a: Pointer, b: Pointer, c: Pointer)
    ensures !Comparator(a, a)
    ensures Comparator(a, b) && Comparator(b, c) ==> Comparator(a, c)
    ensures Comparator(a, b) || Comparator(b, a) || a == b
    ensures !(Comparator(a, b) && Comparator(b, a))
    ensures a.To? && b.To? ==>
              (Comparator(a, b) <==> a.key.next < b.key.next || (a.key.next == b.key.next && a.key.id < b.key.id))
    ensures a.Null? && b.To? ==> Comparator(a, b)
  {
  }

  predicate Less(a: Key, b: Key) { Comparator(To(a), To(b)) }

  function KeyOf(recs: map<Id, Rec>, id: Id): Key
    requires id in recs
  {
    Key(recs[id].next, id)
  }

  predicate Known(recs: map<Id, Rec>, queue: seq<Id>) {
    forall i | 0 <= i < |queue| :: queue[i] in recs
  }

  predicate Sorted(recs: map<Id, Rec>, queue: seq<Id>)
    requires Known(recs, queue)
  {
    forall i, j | 0 <= i < j < |queue| :: Less(KeyOf(recs, queue[i]), KeyOf(recs, queue[j]))
  }

  /** First position whose key is not below `key`. */
  function LowerBound(recs: map<Id, Rec>, queue: seq<Id>, key: Key): (pos: nat)
    requires Known(recs, queue)
    ensures pos <= |queue|
    ensures forall i | 0 <= i < pos :: Less(KeyOf(recs, queue[i]), key)
    ensures pos < |queue| ==> !Less(KeyOf(recs, queue[pos]), key)
  {
    if queue == [] || !Less(KeyOf(recs, queue[0]), key) then 0
    else 1 + LowerBound(recs, queue[1..], key)
  }

  /** Position of an element equivalent to `id`, or the end. */
  function Find(recs: map<Id, Rec>, queue: seq<Id>, id: Id): (pos: nat)
    requires Known(recs, queue) && id in recs
    ensures pos <= |queue|
    ensures pos < |queue| ==> queue[pos] == id
  {
    var pos := LowerBound(recs, queue, KeyOf(recs, id));
    if pos < |queue| && !Less(KeyOf(recs, id), KeyOf(recs, queue[pos])) then pos else |queue|
  }

  function Insert(recs: map<Id, Rec>, queue: seq<Id>, id: Id): seq<Id>
    requires Known(recs, queue) && id in recs
  {
    var pos := LowerBound(recs, queue, KeyOf(recs, id));
    if pos < |queue| && queue[pos] == id then queue
    else queue[..pos] + [id] + queue[pos..]
  }

  function Erase(queue: seq<Id>, pos: nat): seq<Id>
    requires pos < |queue|
  {
    queue[..pos] + queue[pos + 1..]
  }

  /** In a set that is really sorted, ordered search finds every element. */
  lemma FindSucceeds(recs: map<Id, Rec>, queue: seq<Id>, id: Id)
    requires Known(recs, queue) && Sorted(recs, queue) && id in queue
    ensures Find(recs, queue, id) < |queue|
  {
    var k :| 0 <= k < |queue| && queue[k] == id;
    var pos := LowerBound(recs, queue, KeyOf(recs, id));
    assert pos == k;
  }

  lemma InsertShape(recs: map<Id, Rec>, queue: seq<Id>, id: Id)
    requires Known(recs, queue) && id in recs && id !in queue
    ensures var pos := LowerBound(recs, queue, KeyOf(recs, id));
            Insert(recs, queue, id) == queue[..pos] + [id] + queue[pos..]
  {
  }

  lemma InsertKeepsOrder(recs: map<Id, Rec>, queue: seq<Id>, id: Id)
    requires Known(recs, queue) && Sorted(recs, queue) && id in recs && id !in queue
    ensures Known(recs, Insert(recs, queue, id)) && Sorted(recs, Insert(recs, queue, id))
  {
    InsertShape(recs, queue, id);
    var pos := LowerBound(recs, queue, KeyOf(recs, id));
    forall i | pos <= i < |queue|
      ensures Less(KeyOf(recs, id), KeyOf(recs, queue[i]))
    {
      assert !Less(KeyOf(recs, queue[pos]), KeyOf(recs, id)) && queue[pos] != id;
    }
  }

  lemma InsertAdds(recs: map<Id, Rec>, queue: seq<Id>, id: Id)
    requires Known(recs, queue) && id in recs && id !in queue
    ensures forall x :: x in Insert(recs, queue, id) <==> x == id || x in queue
  {
    InsertShape(recs, queue, id);
    var pos := LowerBound(recs, queue, KeyOf(recs, id));
    assert queue == queue[..pos] + queue[pos..];
  }

  /** A new element ends up in front exactly when it is below all the others. */
  lemma InsertAtFront(recs: map<Id, Rec>, queue: seq<Id>, id: Id)
    requires Known(recs, queue) && Sorted(recs, queue) && id in recs && id !in queue
    ensures Insert(recs, queue, id)[0] == id
            <==> forall i | 0 <= i < |queue| :: Less(KeyOf(recs, id), KeyOf(recs, queue[i]))
  {
    InsertShape(recs, queue, id);
    var pos := LowerBound(recs, queue, KeyOf(recs, id));
    if pos > 0 {
      assert Less(KeyOf(recs, queue[0]), KeyOf(recs, id));
    } else if queue != [] {
      assert !Less(KeyOf(recs, queue[0]), KeyOf(recs, id)) && queue[0] != id;
    }
  }

  lemma EraseKeeps(recs: map<Id, Rec>, queue: seq<Id>, pos: nat)
    requires Known(recs, queue) && Sorted(recs, queue) && pos < |queue|
    ensures Known(recs, Erase(queue, pos)) && Sorted(recs, Erase(queue, pos))
    ensures forall x :: x in Erase(queue, pos) <==> x in queue && x != queue[pos]
  {
    var q := Erase(queue, pos);
    assert queue == queue[..pos] + [queue[pos]] + queue[pos + 1..];
    assert forall i | 0 <= i < |queue| && i != pos :: queue[i] != queue[pos];
    assert forall i | 0 <= i < |q| :: q[i] == queue[if i < pos then i else i + 1];
  }

  /** Changing a timer that is outside the set does not disturb the order. */
  lemma OutsiderMayChange(recs: map<Id, Rec>, queue: seq<Id>, id: Id, rec: Rec)
    requires Known(recs, queue) && Sorted(recs, queue) && id !in queue
    ensures Known(recs[id := rec], queue) && Sorted(recs[id := rec], queue)
  {
  }

  // ---------------------------------------------------------------- operations

  function Init(now: nat): Manager {
    State(map[], [], false, now)
  }

  function Update(s: Manager, id: Id, rec: Rec): Manager {
    s.(recs := s.recs[id := rec])
  }

  predicate Armed(s: Manager, id: Id) {
    id in s.recs && s.recs[id].cb != NoCallback
  }

  /** `addTimer(val, lock)`: insert, and raise the wake-up flag when the timer came in front. */
  function InsertTimer(s: Manager, id: Id): Manager
    requires id in s.recs
  {
    var q := Insert(s.recs, s.queue, id);
    s.(queue := q, tickled := s.tickled || q[0] == id)
  }

  function AddStep(s: Manager, id: Id, ms: nat, cb: Callback, recurring: bool, now: nat): Manager
    requires id !in s.recs
  {
    InsertTimer(Update(s, id, Rec(recurring, ms, Add64(now, ms), cb)), id)
  }

  function EraseFound(s: Manager, id: Id): Manager
    requires id in s.recs
  {
    var pos := Find(s.recs, s.queue, id);
    if pos < |s.queue| then s.(queue := Erase(s.queue, pos)) else s
  }

  function CancelStep(s: Manager, id: Id): Manager
    requires id in s.recs
  {
    if Armed(s, id) then EraseFound(Update(s, id, s.recs[id].(cb := NoCallback)), id) else s
  }

  predicate Findable(s: Manager, id: Id)
    requires id in s.recs
  {
    Armed(s, id) && Find(s.recs, s.queue, id) < |s.queue|
  }

  function RefreshStep(s: Manager, id: Id, now: nat): Manager
    requires id in s.recs
  {
    if !Findable(s, id) then s
    else
      var t := Update(EraseFound(s, id), id, s.recs[id].(next := Add64(now, s.recs[id].ms)));
      t.(queue := Insert(t.recs, t.queue, id))
  }

  function ResetRec(rec: Rec, ms: nat, fromNow: bool, now: nat): Rec {
    var start := if fromNow then now else Sub64(rec.next, rec.ms);
    rec.(ms := ms, next := Add64(start, ms))
  }

  /** `seen` is the period the source reads before it takes the lock. */
  predicate ResetSkips(ms: nat, fromNow: bool, seen: nat) { ms == seen && !fromNow }

  function ResetStep(s: Manager, id: Id, ms: nat, fromNow: bool, now: nat, seen: nat): Manager
    requires id in s.recs
  {
    if ResetSkips(ms, fromNow, seen) || !Findable(s, id) then s
    else InsertTimer(Update(EraseFound(s, id), id, ResetRec(s.recs[id], ms, fromNow, now)), id)
  }

  predicate ResetResult(s: Manager, id: Id, ms: nat, fromNow: bool, seen: nat)
    requires id in s.recs
  {
    ResetSkips(ms, fromNow, seen) || Findable(s, id)
  }

  function NextStep(s: Manager): Manager {
    s.(tickled := false)
  }

  function NextDelay(s: Manager, now: nat): nat {
    if s.queue == [] then FOREVER
    else if now >= s.recs[s.queue[0]].next then 0
    else s.recs[s.queue[0]].next - now
  }

  /** `detectClockRollover`, with the unsigned subtraction as written. */
  predicate Rollover(previous: nat, now: nat) {
    now < previous && now < Sub64(previous, HOUR)
  }

  function SkipEqual(recs: map<Id, Rec>, queue: seq<Id>, pos: nat, now: nat): (end: nat)
    requires Known(recs, queue) && pos <= |queue|
    ensures pos <= end <= |queue|
    ensures forall i | pos <= i < end :: recs[queue[i]].next == now
    ensures end < |queue| ==> recs[queue[end]].next != now
    decreases |queue| - pos
  {
    if pos < |queue| && recs[queue[pos]].next == now then SkipEqual(recs, queue, pos + 1, now) else pos
  }

  /** How many timers an expiry takes from the front; `probe` is the probe timer's address. */
  function DueCount(s: Manager, now: nat, probe: Id): (d: nat)
    ensures d <= |s.queue|
  {
    if Rollover(s.previous, now) then |s.queue|
    else SkipEqual(s.recs, s.queue, LowerBound(s.recs, s.queue, Key(now, probe)), now)
  }

  /** Nothing happens to an empty set, nor when the front timer is not due yet. */
  predicate Idle(s: Manager, now: nat) {
    s.queue == [] || (!Rollover(s.previous, now) && s.recs[s.queue[0]].next > now)
  }

  function RequeueOne(s: Manager, id: Id, now: nat): (t: Manager)
    requires id in s.recs
    ensures t.recs.Keys == s.recs.Keys
  {
    var rec := s.recs[id];
    if rec.recurring then
      var t := Update(s, id, rec.(next := Add64(now, rec.ms)));
      t.(queue := Insert(t.recs, t.queue, id))
    else
      Update(s, id, rec.(cb := NoCallback))
  }

  /** Puts the recurring ones of the expired timers back, and disarms the others. */
  function Requeue(s: Manager, expired: seq<Id>, now: nat): (t: Manager)
    requires Known(s.recs, expired)
    ensures t.recs.Keys == s.recs.Keys
  {
    if expired == [] then s
    else RequeueOne(Requeue(s, expired[..|expired| - 1], now), expired[|expired| - 1], now)
  }

  function ExpireStep(s: Manager, now: nat, probe: Id): Manager {
    if s.queue == [] then s
    else
      var t := s.(previous := now);
      if Idle(s, now) then t
      else
        var d := DueCount(s, now, probe);
        Requeue(t.(queue := s.queue[d..]), s.queue[..d], now)
  }

  function FiredBy(s: Manager, now: nat, probe: Id): seq<Fired> {
    if Idle(s, now) then []
    else Callbacks(s.recs, s.queue[..DueCount(s, now, probe)])
  }

  function Callbacks(recs: map<Id, Rec>, ids: seq<Id>): (fired: seq<Fired>)
    requires Known(recs, ids)
    ensures |fired| == |ids|
    ensures forall i | 0 <= i < |ids| :: fired[i] == Fired(ids[i], recs[ids[i]].cb)
  {
    if ids == [] then []
    else
      var n := |ids| - 1;
      Callbacks(recs, ids[..n]) + [Fired(ids[n], recs[ids[n]].cb)]
  }

  // ---------------------------------------------------------------- runs

  datatype Op =
    | Add(id: Id, ms: nat, cb: Callback, recurring: bool, now: nat)
    | Cancel(id: Id)
    | Refresh(id: Id, now: nat)
    | Reset(id: Id, ms: nat, fromNow: bool, now: nat, seen: nat)
    | GetNext(now: nat)
    | Expire(now: nat, probe: Id)

  /** A new timer has an address of its own; every other operation needs a timer that exists. */
  predicate Possible(s: Manager, op: Op) {
    match op
    case Add(id, _, _, _, _) => id !in s.recs
    case Cancel(id) => id in s.recs
    case Refresh(id, _) => id in s.recs
    case Reset(id, _, _, _, _) => id in s.recs
    case GetNext(_) => true
    case Expire(_, _) => true
  }

  function DoOp(s: Manager, op: Op): Manager {
    if !Possible(s, op) then s
    else
      match op
      case Add(id, ms, cb, recurring, now) => AddStep(s, id, ms, cb, recurring, now)
      case Cancel(id) => CancelStep(s, id)
      case Refresh(id, now) => RefreshStep(s, id, now)
      case Reset(id, ms, fromNow, now, seen) => ResetStep(s, id, ms, fromNow, now, seen)
      case GetNext(_) => NextStep(s)
      case Expire(now, probe) => ExpireStep(s, now, probe)
  }

  function Run(s: Manager, ops: seq<Op>): Manager {
    Fold(DoOp, s, ops)
  }
}
