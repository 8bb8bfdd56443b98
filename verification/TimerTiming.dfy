/**
 Timers against the clock.  An event is an operation together with the clock when it takes
 effect; the time it uses may have been read earlier when the source reads it before taking
 the lock.
 */
module TimerTiming {
  import opened Machine
  import opened Sequences
  import opened TimerProtocol
  import opened TimerProperties

  /** `start` is the clock when the manager was made; `seen` is the front deadline at the last
      `getNextTimer`, or 2^64 when there was none. */
  datatype Timed = Timed(m: Manager, start: nat, clock: nat, seen: nat)

  datatype Event = Event(op: Op, clock: nat)

  function Begin(start: nat): Timed { Timed(Init(start), start, start, TWO_64) }

  /** The clock does not go back, sums do not wrap, and every reading was taken after the manager was
      made and not after the event takes effect. `addTimer` and `listExpiredCb` may use a reading
      taken before the lock. */
  predicate Timely(ts: Timed, e: Event) {
    && ts.clock <= e.clock
    && match e.op
       case Add(_, ms, _, _, now) => ts.start <= now <= e.clock && now + ms < TWO_64
       case Cancel(_) => true
       case Refresh(id, now) => now == e.clock && (id in ts.m.recs ==> now + ts.m.recs[id].ms < TWO_64)
       case Reset(_, ms, _, now, _) => now == e.clock && now + ms < TWO_64
       case GetNext(now) => now == e.clock
       case Expire(now, _) =>
         ts.start <= now <= e.clock && forall id | id in ts.m.queue :: now + ts.m.recs[id].ms < TWO_64
  }

  function FrontDeadline(m: Manager): nat {
    if m.queue == [] then TWO_64 else m.recs[m.queue[0]].next
  }

  function After(ts: Timed, e: Event): Timed {
    Timed(DoOp(ts.m, e.op), ts.start, e.clock, if e.op.GetNext? then FrontDeadline(ts.m) else ts.seen)
  }

  function TimedRun(ts: Timed, events: seq<Event>): Timed {
    Fold(After, ts, events)
  }

  predicate AllTimely(ts: Timed, events: seq<Event>) {
    events == [] ||
    (AllTimely(ts, events[..|events| - 1]) && Timely(TimedRun(ts, events[..|events| - 1]), events[|events| - 1]))
  }

  /** Every queued timer's period began at some time not later than now. */
  predicate Started(m: Manager, clock: nat) {
    forall id | id in m.queue :: m.recs[id].ms <= m.recs[id].next <= clock + m.recs[id].ms
  }

  /** Either the wake-up flag is raised or no deadline is before the one last announced. */
  predicate Awake(m: Manager, seen: nat) {
    m.tickled || forall id | id in m.queue :: m.recs[id].next >= seen
  }

  predicate Timekeeping(ts: Timed) {
    Inv(ts.m) && Started(ts.m, ts.clock) && Awake(ts.m, ts.seen)
  }

  /** Only an expiry that takes its reading for a rollover can do harm. It does none while a wake-up is
      under way, or if every recurring timer's next period ends no sooner than the deadline last
      announced. */
  predicate Harmless(ts: Timed, e: Event) {
    e.op.Expire? && Rollover(ts.m.previous, e.op.now) ==>
      ts.m.tickled ||
      forall id | id in ts.m.queue && ts.m.recs[id].recurring :: e.op.now + ts.m.recs[id].ms >= ts.seen
  }

  // ---------------------------------------------------------------- one operation at a time

  /** `refresh` never brings a deadline forward. */
  lemma RefreshOnlyPostpones(ts: Timed, e: Event)
    requires Inv(ts.m) && Started(ts.m, ts.clock) && Timely(ts, e) && e.op.Refresh? && e.op.id in ts.m.queue
    ensures After(ts, e).m.recs[e.op.id].next >= ts.m.recs[e.op.id].next
  {
    RefreshKeepsInv(ts.m, e.op.id, e.op.now);
  }

  /** The subtraction in `reset` never wraps. */
  lemma ResetDoesNotWrap(ts: Timed, id: Id)
    requires Inv(ts.m) && Started(ts.m, ts.clock) && id in ts.m.queue
    ensures Sub64(ts.m.recs[id].next, ts.m.recs[id].ms) == ts.m.recs[id].next - ts.m.recs[id].ms
  {
  }

  /** What `reset` makes of an armed timer it does not skip. */
  lemma ResetIsExact(ts: Timed, e: Event)
    requires Inv(ts.m) && Started(ts.m, ts.clock) && Timely(ts, e) && e.op.Reset?
    requires Armed(ts.m, e.op.id) && (e.op.fromNow || e.op.ms != e.op.seen)
    ensures var before, ms := ts.m.recs[e.op.id], e.op.ms;
            var next := if e.op.fromNow then e.op.now + ms else before.next - before.ms + ms;
            && next >= 0 && e.op.id in After(ts, e).m.recs
            && After(ts, e).m.recs[e.op.id] == Rec(before.recurring, ms, next, before.cb)
  {
    ResetDoesNotWrap(ts, e.op.id);
    assert e.op.id in ts.m.queue;
    ResetInNumbers(ts.m, e.op.id, e.op.ms, e.op.fromNow, e.op.now, e.op.seen);
  }

  lemma ResetInNumbers(m: Manager, id: Id, ms: nat, fromNow: bool, now: nat, seen: nat)
    requires Inv(m) && id in m.recs && Armed(m, id) && (fromNow || ms != seen)
    requires m.recs[id].ms <= m.recs[id].next <= now + m.recs[id].ms && now + ms < TWO_64
    ensures var rec := m.recs[id];
            var next := if fromNow then now + ms else rec.next - rec.ms + ms;
            && id in ResetStep(m, id, ms, fromNow, now, seen).recs
            && ResetStep(m, id, ms, fromNow, now, seen).recs[id] == Rec(rec.recurring, ms, next, rec.cb)
  {
    var rec := m.recs[id];
    ResetKeepsInv(m, id, ms, fromNow, now, seen);
    NothingWraps(rec.next, rec.ms, ms, now);
  }

  lemma NothingWraps(next: nat, ms: nat, newMs: nat, now: nat)
    requires ms <= next <= now + ms && next < TWO_64 && now + newMs < TWO_64
    ensures Add64(now, newMs) == now + newMs
    ensures Add64(Sub64(next, ms), newMs) == next - ms + newMs
  {
  }

  /** Inserting through `addTimer` keeps the wake-up promise, wherever the timer lands. */
  lemma InsertWakes(u: Manager, id: Id, seen: nat)
    requires id in u.recs && id !in u.queue && Sorted(u.recs, u.queue) && Awake(u, seen)
    ensures Awake(InsertTimer(u, id), seen)
  {
    InsertAtFront(u.recs, u.queue, id);
    InsertAdds(u.recs, u.queue, id);
    if !InsertTimer(u, id).tickled {
      var i :| 0 <= i < |u.queue| && !Less(KeyOf(u.recs, id), KeyOf(u.recs, u.queue[i]));
      assert u.queue[i] in u.queue;
    }
  }

  lemma AddStarts(ts: Timed, e: Event)
    requires Timekeeping(ts) && Timely(ts, e) && e.op.Add? && Possible(ts.m, e.op)
    ensures Inv(After(ts, e).m) && Started(After(ts, e).m, e.clock)
  {
    AddKeepsInv(ts.m, e.op.id, e.op.ms, e.op.cb, e.op.recurring, e.op.now);
  }

  lemma AddWakes(m: Manager, id: Id, rec: Rec, seen: nat)
    requires Sorted(m.recs, m.queue) && id !in m.recs && Awake(m, seen)
    ensures Awake(InsertTimer(Update(m, id, rec), id), seen)
  {
    OutsiderMayChange(m.recs, m.queue, id, rec);
    InsertWakes(Update(m, id, rec), id, seen);
  }

  lemma AddKeepsTime(ts: Timed, e: Event)
    requires Timekeeping(ts) && Timely(ts, e) && e.op.Add? && Possible(ts.m, e.op)
    ensures Timekeeping(After(ts, e))
  {
    AddStarts(ts, e);
    AddWakes(ts.m, e.op.id, Rec(e.op.recurring, e.op.ms, Add64(e.op.now, e.op.ms), e.op.cb), ts.seen);
  }

  lemma CancelKeepsTime(ts: Timed, e: Event)
    requires Timekeeping(ts) && Timely(ts, e) && e.op.Cancel? && Possible(ts.m, e.op)
    ensures Timekeeping(After(ts, e))
  {
    CancelKeepsInv(ts.m, e.op.id);
  }

  lemma RefreshKeepsTime(ts: Timed, e: Event)
    requires Timekeeping(ts) && Timely(ts, e) && e.op.Refresh? && Possible(ts.m, e.op)
    ensures Timekeeping(After(ts, e))
  {
    RefreshKeepsInv(ts.m, e.op.id, e.op.now);
    ArmedIsFindable(ts.m, e.op.id);
  }

  lemma ResetStarts(ts: Timed, e: Event)
    requires Timekeeping(ts) && Timely(ts, e) && e.op.Reset? && Possible(ts.m, e.op)
    ensures Inv(After(ts, e).m) && Started(After(ts, e).m, e.clock)
  {
    ResetKeepsInv(ts.m, e.op.id, e.op.ms, e.op.fromNow, e.op.now, e.op.seen);
    ArmedIsFindable(ts.m, e.op.id);
  }

  lemma ResetWakes(m: Manager, id: Id, rec: Rec, seen: nat)
    requires Sorted(m.recs, m.queue) && id in m.recs && Awake(m, seen)
    ensures Awake(InsertTimer(Update(EraseFound(m, id), id, rec), id), seen)
  {
    EraseFoundRemoves(m, id);
    var u := EraseFound(m, id);
    OutsiderMayChange(u.recs, u.queue, id, rec);
    InsertWakes(Update(u, id, rec), id, seen);
  }

  lemma ResetKeepsTime(ts: Timed, e: Event)
    requires Timekeeping(ts) && Timely(ts, e) && e.op.Reset? && Possible(ts.m, e.op)
    ensures Timekeeping(After(ts, e))
  {
    ResetStarts(ts, e);
    ResetWakes(ts.m, e.op.id, ResetRec(ts.m.recs[e.op.id], e.op.ms, e.op.fromNow, e.op.now), ts.seen);
  }

  lemma NextKeepsTime(ts: Timed, e: Event)
    requires Timekeeping(ts) && Timely(ts, e) && e.op.GetNext?
    ensures Timekeeping(After(ts, e))
  {
    forall id | id in ts.m.queue
      ensures ts.m.recs[id].next >= FrontDeadline(ts.m)
    {
      var i :| 0 <= i < |ts.m.queue| && ts.m.queue[i] == id;
      assert i > 0 ==> Less(KeyOf(ts.m.recs, ts.m.queue[0]), KeyOf(ts.m.recs, ts.m.queue[i]));
    }
  }

  lemma ExpireStarts(ts: Timed, e: Event)
    requires Timekeeping(ts) && Timely(ts, e) && e.op.Expire?
    ensures Inv(After(ts, e).m) && Started(After(ts, e).m, e.clock)
  {
    ExpiryIsExact(ts.m, e.op.now, e.op.probe);
    ExpireKeepsInv(ts.m, e.op.now, e.op.probe);
  }

  /** What an expiry does to the timers in the set. */
  lemma ExpiryMoves(ts: Timed, e: Event)
    requires Inv(ts.m) && Timely(ts, e) && e.op.Expire?
    ensures var m, t, now := ts.m, After(ts, e).m, e.op.now;
            && t.tickled == m.tickled && t.recs.Keys == m.recs.Keys
            && (forall id :: id in t.queue <==> id in m.queue && (Due(m, id, now) ==> m.recs[id].recurring))
            && forall id | id in t.queue ::
                 t.recs[id].next == if Due(m, id, now) then now + m.recs[id].ms else m.recs[id].next
  {
    ExpiryIsExact(ts.m, e.op.now, e.op.probe);
  }

  /** Re-inserting the recurring timers bypasses the wake-up. It keeps the promise exactly if none of
      them moves before the deadline last announced while no wake-up is under way. */
  lemma ExpireWakesIff(ts: Timed, e: Event)
    requires Timekeeping(ts) && Timely(ts, e) && e.op.Expire?
    ensures Awake(After(ts, e).m, ts.seen) <==> Harmless(ts, e)
  {
    ExpiryMoves(ts, e);
    if !Harmless(ts, e) {
      var id :| id in ts.m.queue && ts.m.recs[id].recurring && e.op.now + ts.m.recs[id].ms < ts.seen;
      assert Due(ts.m, id, e.op.now);
      assert id in After(ts, e).m.queue;
    }
  }

  lemma ExpireIff(ts: Timed, e: Event)
    requires Timekeeping(ts) && Timely(ts, e) && e.op.Expire?
    ensures Timekeeping(After(ts, e)) <==> Harmless(ts, e)
  {
    ExpireStarts(ts, e);
    ExpireWakesIff(ts, e);
  }

  /** One event, exactly: it keeps the books if and only if it is harmless. */
  lemma EventIff(ts: Timed, e: Event)
    requires Timekeeping(ts) && Timely(ts, e)
    ensures Timekeeping(After(ts, e)) <==> Harmless(ts, e)
  {
    match e.op
    case Expire(_, _) => ExpireIff(ts, e);
    case GetNext(_) => NextKeepsTime(ts, e);
    case _ => MoverKeepsTime(ts, e);
  }

  lemma MoverKeepsTime(ts: Timed, e: Event)
    requires Timekeeping(ts) && Timely(ts, e) && !e.op.Expire? && !e.op.GetNext?
    ensures Timekeeping(After(ts, e))
  {
    if Possible(ts.m, e.op) {
      match e.op
      case Add(_, _, _, _, _) => AddKeepsTime(ts, e);
      case Cancel(_) => CancelKeepsTime(ts, e);
      case Refresh(_, _) => RefreshKeepsTime(ts, e);
      case Reset(_, _, _, _, _) => ResetKeepsTime(ts, e);
    }
  }

  /** The periods do not depend on what has been announced. */
  lemma EventStarts(ts: Timed, e: Event)
    requires Inv(ts.m) && Started(ts.m, ts.clock) && Timely(ts, e)
    ensures Inv(After(ts, e).m) && Started(After(ts, e).m, e.clock)
  {
    EventIff(ts.(seen := 0), e);
  }

  // ---------------------------------------------------------------- whole runs

  /** In any timely run, in whatever order the readings are taken, every queued timer's period began
      in the past, so that `refresh` only postpones and `reset` does not wrap. */
  lemma {:induction false} PeriodsStarted(start: nat, events: seq<Event>)
    requires AllTimely(Begin(start), events)
    ensures var ts := TimedRun(Begin(start), events);
            Inv(ts.m) && Started(ts.m, ts.clock)
  {
    if events != [] {
      var n := |events| - 1;
      PeriodsStarted(start, events[..n]);
      EventStarts(TimedRun(Begin(start), events[..n]), events[n]);
    }
  }

  /** Whether the event starts a new period of this timer. */
  predicate Begins(m: Manager, op: Op, id: Id) {
    match op
    case Add(x, _, _, _, _) => x == id && id !in m.recs
    case Refresh(x, _) => x == id && Armed(m, id)
    case Reset(x, _, fromNow, _, _) => x == id && Armed(m, id) && fromNow
    case Expire(now, _) => id in m.recs && Due(m, id, now) && m.recs[id].recurring
    case _ => false
  }

  /** Whether it gives the timer a length of period. */
  predicate Sets(m: Manager, op: Op, id: Id) {
    match op
    case Add(x, _, _, _, _) => x == id && id !in m.recs
    case Reset(x, ms, fromNow, _, seen) => x == id && Armed(m, id) && (fromNow || ms != seen)
    case _ => false
  }

  /** When the timer's current period began: the reading of the last event that started one. */
  function Began(start: nat, events: seq<Event>, id: Id): nat {
    if events == [] then start
    else
      var front, last := events[..|events| - 1], events[|events| - 1];
      if Begins(TimedRun(Begin(start), front).m, last.op, id) then last.op.now else Began(start, front, id)
  }

  /** The length it was given last. */
  function Period(start: nat, events: seq<Event>, id: Id): nat {
    if events == [] then 0
    else
      var front, last := events[..|events| - 1], events[|events| - 1];
      if Sets(TimedRun(Begin(start), front).m, last.op, id) then last.op.ms else Period(start, front, id)
  }

  /** What one event may do to the length and the beginning of a period. */
  predicate Moves(m: Manager, op: Op, t: Manager, id: Id)
    requires id in t.recs && (id in m.recs || (Sets(m, op, id) && Begins(m, op, id)))
  {
    && t.recs[id].ms == (if Sets(m, op, id) then op.ms else m.recs[id].ms)
    && (if Begins(m, op, id) then t.recs[id].next == op.now + t.recs[id].ms
        else t.recs[id].next - t.recs[id].ms == m.recs[id].next - m.recs[id].ms)
  }

  lemma EventMoves(ts: Timed, e: Event, id: Id)
    requires Inv(ts.m) && Started(ts.m, ts.clock) && Timely(ts, e) && id in After(ts, e).m.queue
    ensures id in ts.m.queue || (Sets(ts.m, e.op, id) && Begins(ts.m, e.op, id))
    ensures Moves(ts.m, e.op, After(ts, e).m, id)
  {
    if Possible(ts.m, e.op) {
      match e.op
      case Add(x, ms, cb, recurring, now) => AddKeepsInv(ts.m, x, ms, cb, recurring, now);
      case Cancel(x) => CancelKeepsInv(ts.m, x);
      case Refresh(x, now) => RefreshKeepsInv(ts.m, x, now);
      case Reset(_, _, _, _, _) => ResetMoves(ts, e, id);
      case GetNext(_) =>
      case Expire(_, _) => ExpireMoves(ts, e, id);
    }
  }

  lemma ResetMoves(ts: Timed, e: Event, id: Id)
    requires Inv(ts.m) && Started(ts.m, ts.clock) && Timely(ts, e) && e.op.Reset? && Possible(ts.m, e.op)
    requires id in After(ts, e).m.queue
    ensures id in ts.m.queue && Moves(ts.m, e.op, After(ts, e).m, id)
  {
    ResetKeepsInv(ts.m, e.op.id, e.op.ms, e.op.fromNow, e.op.now, e.op.seen);
    if Armed(ts.m, e.op.id) && (e.op.fromNow || e.op.ms != e.op.seen) {
      ResetIsExact(ts, e);
    }
  }

  lemma ExpireMoves(ts: Timed, e: Event, id: Id)
    requires Inv(ts.m) && Timely(ts, e) && e.op.Expire? && id in After(ts, e).m.queue
    ensures id in ts.m.queue && Moves(ts.m, e.op, After(ts, e).m, id)
  {
    ExpiryIsExact(ts.m, e.op.now, e.op.probe);
  }

  /** In any timely run every queued timer's deadline is its last length of period after the moment its
      current period began. */
  lemma {:induction false} DeadlineLaw(start: nat, events: seq<Event>, id: Id)
    requires AllTimely(Begin(start), events) && id in TimedRun(Begin(start), events).m.queue
    ensures var rec := TimedRun(Begin(start), events).m.recs[id];
            rec.ms == Period(start, events, id) && rec.next == Began(start, events, id) + Period(start, events, id)
  {
    if events != [] {
      var n := |events| - 1;
      var ts := TimedRun(Begin(start), events[..n]);
      PeriodsStarted(start, events[..n]);
      EventMoves(ts, events[n], id);
      if id in ts.m.queue {
        DeadlineLaw(start, events[..n], id);
      }
    }
  }

  predicate AlwaysTimekeeping(ts: Timed, events: seq<Event>) {
    Timekeeping(TimedRun(ts, events)) && (events == [] || AlwaysTimekeeping(ts, events[..|events| - 1]))
  }

  predicate AllHarmless(ts: Timed, events: seq<Event>) {
    events == [] ||
    (AllHarmless(ts, events[..|events| - 1]) && Harmless(TimedRun(ts, events[..|events| - 1]), events[|events| - 1]))
  }

  /** Any timely run, exactly: at no point is a wake-up lost if and only if every expiry in it is
      harmless. */
  lemma {:induction false} WakeupIff(start: nat, events: seq<Event>)
    requires AllTimely(Begin(start), events)
    ensures AlwaysTimekeeping(Begin(start), events) <==> AllHarmless(Begin(start), events)
  {
    if events != [] {
      var n := |events| - 1;
      WakeupIff(start, events[..n]);
      if AlwaysTimekeeping(Begin(start), events[..n]) {
        KeepsAtLast(Begin(start), events[..n]);
        EventIff(TimedRun(Begin(start), events[..n]), events[n]);
      }
    }
  }

  lemma KeepsAtLast(ts: Timed, events: seq<Event>)
    requires AlwaysTimekeeping(ts, events)
    ensures Timekeeping(TimedRun(ts, events))
  {
  }

  /** The reading of the last expiry, or of the manager's construction. */
  function LastReading(start: nat, events: seq<Event>): nat {
    if events == [] then start
    else
      var last := events[|events| - 1];
      if last.op.Expire? then last.op.now else LastReading(start, events[..|events| - 1])
  }

  /** Each expiry's reading of the clock is not before that of the expiry that had the lock before. */
  predicate ReadsInOrder(start: nat, events: seq<Event>) {
    events == [] ||
    var front, last := events[..|events| - 1], events[|events| - 1];
    ReadsInOrder(start, front) && (last.op.Expire? ==> LastReading(start, front) <= last.op.now)
  }

  /** While the readings are in order, the manager's own note of the time is never ahead of the next
      one, so no expiry detects a rollover. */
  lemma {:induction false} PreviousIsBehind(start: nat, events: seq<Event>)
    requires ReadsInOrder(start, events)
    ensures TimedRun(Begin(start), events).m.previous <= LastReading(start, events)
  {
    if events != [] {
      var n := |events| - 1;
      PreviousIsBehind(start, events[..n]);
      OnlyExpiryNotes(TimedRun(Begin(start), events[..n]).m, events[n].op);
    }
  }

  lemma OnlyExpiryNotes(m: Manager, op: Op)
    ensures DoOp(m, op).previous == m.previous || (op.Expire? && DoOp(m, op).previous == op.now)
  {
    if op.Expire? {
      ExpiryNotes(m, op.now, op.probe);
    }
  }

  lemma ExpiryNotes(m: Manager, now: nat, probe: Id)
    ensures ExpireStep(m, now, probe).previous == m.previous || ExpireStep(m, now, probe).previous == now
  {
    if m.queue != [] && !Idle(m, now) {
      var d := DueCount(m, now, probe);
      RequeueKeepsNote(m.(previous := now, queue := m.queue[d..]), m.queue[..d], now);
    }
  }

  lemma {:induction false} RequeueKeepsNote(m: Manager, expired: seq<Id>, now: nat)
    requires Known(m.recs, expired)
    ensures Requeue(m, expired, now).previous == m.previous
  {
    if expired != [] {
      RequeueKeepsNote(m, expired[..|expired| - 1], now);
    }
  }

  /** When expiries read the clock in the order in which they take the lock, no wake-up is ever lost
      and no period begins in the future. */
  lemma {:induction false} NoLostWakeup(start: nat, events: seq<Event>)
    requires AllTimely(Begin(start), events) && ReadsInOrder(start, events)
    ensures AlwaysTimekeeping(Begin(start), events)
  {
    if events != [] {
      var n := |events| - 1;
      var ts := TimedRun(Begin(start), events[..n]);
      NoLostWakeup(start, events[..n]);
      KeepsAtLast(Begin(start), events[..n]);
      PreviousIsBehind(start, events[..n]);
      if events[n].op.Expire? {
        NoRolloverInOrder(ts.m.previous, events[n].op.now);
      }
      EventIff(ts, events[n]);
    }
  }

  // ---------------------------------------------------------------- what a stale reading breaks

  /** On rollover a recurring timer can move to an earlier deadline with the flag left down. */
  lemma RolloverBringsForward(m: Manager, id: Id, now: nat, probe: Id)
    requires Inv(m) && Rollover(m.previous, now) && id in m.queue && m.recs[id].recurring
    requires now + m.recs[id].ms < m.recs[id].next
    ensures var t := ExpireStep(m, now, probe);
            id in t.queue && t.recs[id].next == now + m.recs[id].ms && t.tickled == m.tickled
  {
    ExpiryIsExact(m, now, probe);
  }

  /** Two threads expire timers within the first hour of the clock. One reads 4 and is overtaken by
      another that reads 5; when the first gets the lock its reading looks like a rollover, and the
      recurring timer announced for 15 moves to 14 with nobody woken. */
  lemma StaleReadingLosesWakeup(probe: Id)
    ensures var events := [Event(Add(0, 10, Callback(0), true, 5), 5), Event(Expire(5, probe), 5),
                           Event(GetNext(6), 6), Event(Expire(4, probe), 6)];
            && AllTimely(Begin(1), events)
            && AlwaysTimekeeping(Begin(1), events[..3]) && !AlwaysTimekeeping(Begin(1), events)
  {
    var e1, e2 := Event(Add(0, 10, Callback(0), true, 5), 5), Event(Expire(5, probe), 5);
    var e3, e4 := Event(GetNext(6), 6), Event(Expire(4, probe), 6);
    StaleSteps(probe);
    TimelySnoc(Begin(1), [], e1);
    assert [] + [e1] == [e1];
    TimelySnoc(Begin(1), [e1], e2);
    assert [e1] + [e2] == [e1, e2];
    TimelySnoc(Begin(1), [e1, e2], e3);
    assert [e1, e2] + [e3] == [e1, e2, e3];
    TimelySnoc(Begin(1), [e1, e2, e3], e4);
    assert [e1, e2, e3] + [e4] == [e1, e2, e3, e4];
    assert [e1, e2, e3, e4][..3] == [e1, e2, e3];
    InOrderSoFar(e1, e2, e3);
    NoLostWakeup(1, [e1, e2, e3]);
  }

  lemma TimelySnoc(ts: Timed, events: seq<Event>, e: Event)
    ensures TimedRun(ts, events + [e]) == After(TimedRun(ts, events), e)
    ensures AllTimely(ts, events + [e]) <==> AllTimely(ts, events) && Timely(TimedRun(ts, events), e)
  {
    FoldSnoc(After, ts, events, e);
    assert (events + [e])[..|events|] == events;
  }

  lemma InOrderSoFar(e1: Event, e2: Event, e3: Event)
    requires e1.op.Add? && e2.op.Expire? && e3.op.GetNext? && e2.op.now >= 1
    ensures ReadsInOrder(1, [e1, e2, e3])
  {
    assert [e1, e2, e3][..2] == [e1, e2] && [e1, e2][..1] == [e1] && [e1][..0] == [];
    assert LastReading(1, []) == 1 && LastReading(1, [e1]) == 1 && ReadsInOrder(1, [e1]);
    assert ReadsInOrder(1, [e1, e2]);
  }

  /** The states of that run. */
  lemma StaleSteps(probe: Id)
    ensures var t1 := After(Begin(1), Event(Add(0, 10, Callback(0), true, 5), 5));
            var t2 := After(t1, Event(Expire(5, probe), 5));
            var t3 := After(t2, Event(GetNext(6), 6));
            && t2.m.queue == [0] && t2.m.recs == t1.m.recs
            && 0 in t1.m.recs && t1.m.recs[0] == Rec(true, 10, 15, Callback(0))
            && t3 == Timed(t2.m.(tickled := false), 1, 6, 15) && t2.m.previous == 5 && t1.clock == 5 && t2.clock == 5
            && !Timekeeping(After(t3, Event(Expire(4, probe), 6)))
  {
    var t1 := After(Begin(1), Event(Add(0, 10, Callback(0), true, 5), 5));
    var t2 := After(t1, Event(Expire(5, probe), 5));
    var t3 := After(t2, Event(GetNext(6), 6));
    assert t1.m.queue == [0] && t1.m.recs[0].next == 15;
    assert Idle(t1.m, 5);
    assert t2.m == t1.m.(previous := 5);
    RolloverIff(5, 4);
    AddKeepsInv(Init(1), 0, 10, Callback(0), true, 5);
    assert 0 in t3.m.queue;
    RolloverBringsForward(t3.m, 0, 4, probe);
  }
}
