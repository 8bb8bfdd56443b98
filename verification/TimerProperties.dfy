/** What the timer manager guarantees: exact expiry, accounting over whole runs, and wake-ups. */
module TimerProperties {
  import opened Machine
  import opened Sequences
  import opened TimerProtocol

  // ---------------------------------------------------------------- registry invariant

  /** The set is sorted, holds every timer that still has a callback, and deadlines are 64-bit. */
  predicate Inv(s: Manager) {
    && Sorted(s.recs, s.queue)
    && (forall id | id in s.recs && Armed(s, id) :: id in s.queue)
    && (forall id | id in s.recs :: s.recs[id].next < TWO_64)
  }

  /** With non-empty callbacks, only timers that have one are in the set. */
  predicate AllArmed(s: Manager) {
    forall id | id in s.queue :: Armed(s, id)
  }

  /** In a reachable state ordered search always finds an armed timer, so the not-found branches
      of `refresh` and `reset` are dead and `cancel` always has something to erase. */
  lemma ArmedIsFindable(s: Manager, id: Id)
    requires Inv(s) && id in s.recs
    ensures Findable(s, id) <==> Armed(s, id)
    ensures Armed(s, id) ==> Find(s.recs, s.queue, id) < |s.queue|
  {
    if Armed(s, id) {
      FindSucceeds(s.recs, s.queue, id);
    }
  }

  lemma EraseFoundRemoves(s: Manager, id: Id)
    requires Sorted(s.recs, s.queue) && id in s.recs
    ensures var t := EraseFound(s, id);
            && t == s.(queue := t.queue)
            && Sorted(t.recs, t.queue)
            && forall x :: x in t.queue <==> x in s.queue && x != id
  {
    if id in s.queue {
      FindSucceeds(s.recs, s.queue, id);
      EraseKeeps(s.recs, s.queue, Find(s.recs, s.queue, id));
    }
  }

  /** Taking a timer out, changing it, and inserting it again keeps the set sorted. */
  lemma MoveTimer(s: Manager, id: Id, rec: Rec)
    requires Sorted(s.recs, s.queue) && id in s.recs
    ensures var t := Update(EraseFound(s, id), id, rec);
            var q := Insert(t.recs, t.queue, id);
            && Known(t.recs, q) && Sorted(t.recs, q) && id !in t.queue
            && forall x :: x in q <==> x == id || x in s.queue
  {
    EraseFoundRemoves(s, id);
    var t := EraseFound(s, id);
    OutsiderMayChange(t.recs, t.queue, id, rec);
    InsertKeepsOrder(t.recs[id := rec], t.queue, id);
    InsertAdds(t.recs[id := rec], t.queue, id);
  }

  // ---------------------------------------------------------------- expiry

  lemma DueIsExact(s: Manager, now: nat, probe: Id)
    requires Sorted(s.recs, s.queue) && !Rollover(s.previous, now)
    ensures var d := DueCount(s, now, probe);
            && (forall i | 0 <= i < d :: s.recs[s.queue[i]].next <= now)
            && (forall i | d <= i < |s.queue| :: s.recs[s.queue[i]].next > now)
  {
    var lb := LowerBound(s.recs, s.queue, Key(now, probe));
    var d := DueCount(s, now, probe);
    forall i | d <= i < |s.queue|
      ensures s.recs[s.queue[i]].next > now
    {
      assert s.recs[s.queue[d]].next != now;
      assert lb < |s.queue| && !Less(KeyOf(s.recs, s.queue[lb]), Key(now, probe));
      if lb < d {
        assert Less(KeyOf(s.recs, s.queue[lb]), KeyOf(s.recs, s.queue[d]));
      }
    }
  }

  /** The state of one timer after the expired ones have been put back or disarmed. */
  function AfterExpiry(rec: Rec, now: nat): Rec {
    if rec.recurring then rec.(next := Add64(now, rec.ms)) else rec.(cb := NoCallback)
  }

  predicate Distinct(ids: seq<Id>) {
    forall i, j | 0 <= i < j < |ids| :: ids[i] != ids[j]
  }

  lemma RequeueOneKeeps(s: Manager, id: Id, now: nat)
    requires Sorted(s.recs, s.queue) && id in s.recs && id !in s.queue
    ensures var t := RequeueOne(s, id, now);
            && Sorted(t.recs, t.queue)
            && t.recs == s.recs[id := AfterExpiry(s.recs[id], now)]
            && t.tickled == s.tickled && t.previous == s.previous
            && forall x :: x in t.queue <==> x in s.queue || (x == id && s.recs[id].recurring)
  {
    var rec := AfterExpiry(s.recs[id], now);
    OutsiderMayChange(s.recs, s.queue, id, rec);
    if rec.recurring {
      InsertKeepsOrder(s.recs[id := rec], s.queue, id);
      InsertAdds(s.recs[id := rec], s.queue, id);
    }
  }

  lemma {:induction false} RequeueIsExact(s: Manager, expired: seq<Id>, now: nat)
    requires Sorted(s.recs, s.queue) && Known(s.recs, expired) && Distinct(expired)
    requires forall x | x in expired :: x !in s.queue
    ensures var t := Requeue(s, expired, now);
            && Sorted(t.recs, t.queue)
            && t.tickled == s.tickled && t.previous == s.previous
            && (forall x :: x in t.queue <==> x in s.queue || (x in expired && s.recs[x].recurring))
            && (forall x | x in s.recs :: t.recs[x] == if x in expired then AfterExpiry(s.recs[x], now) else s.recs[x])
  {
    if expired != [] {
      var n := |expired| - 1;
      var front, last := expired[..n], expired[n];
      assert expired == front + [last];
      RequeueIsExact(s, front, now);
      RequeueOneKeeps(Requeue(s, front, now), last, now);
    }
  }

  /** A timer that is not among the expired ones keeps its fields. */
  lemma {:induction false} RequeueSparesOthers(s: Manager, expired: seq<Id>, now: nat, x: Id)
    requires Known(s.recs, expired) && x in s.recs && x !in expired
    ensures Requeue(s, expired, now).recs[x] == s.recs[x]
  {
    if expired != [] {
      var n := |expired| - 1;
      assert expired == expired[..n] + [expired[n]];
      RequeueSparesOthers(s, expired[..n], now, x);
    }
  }

  lemma SortedIsDistinct(s: Manager)
    requires Sorted(s.recs, s.queue)
    ensures Distinct(s.queue)
  {
  }

  /** The timers an expiry takes: all with a deadline up to now, or all of them on rollover. */
  predicate Due(s: Manager, id: Id, now: nat)
    requires id in s.recs
  {
    id in s.queue && (Rollover(s.previous, now) || s.recs[id].next <= now)
  }

  lemma FrontAndRest(s: Manager, d: nat)
    requires Sorted(s.recs, s.queue) && d <= |s.queue|
    ensures var front, rest := s.queue[..d], s.queue[d..];
            && Known(s.recs, front) && Known(s.recs, rest) && Sorted(s.recs, rest) && Distinct(front)
            && (forall x | x in front :: x !in rest)
            && (forall x :: x in s.queue <==> x in front || x in rest)
  {
    assert s.queue == s.queue[..d] + s.queue[d..];
  }

  lemma IdleMeansNoneDue(s: Manager, now: nat, probe: Id)
    requires Sorted(s.recs, s.queue)
    ensures Idle(s, now) <==> DueCount(s, now, probe) == 0
  {
    if !Rollover(s.previous, now) {
      DueIsExact(s, now, probe);
    }
  }

  lemma DueMeansFront(s: Manager, now: nat, probe: Id, x: Id)
    requires Sorted(s.recs, s.queue) && x in s.recs
    ensures x in s.queue[..DueCount(s, now, probe)] <==> Due(s, x, now)
  {
    var d := DueCount(s, now, probe);
    if Rollover(s.previous, now) {
      assert s.queue[..d] == s.queue;
    } else if x in s.queue {
      DueIsExact(s, now, probe);
      var i :| 0 <= i < |s.queue| && s.queue[i] == x;
      FrontAndRest(s, d);
      if i < d {
        assert s.queue[..d][i] == x;
      } else {
        assert s.queue[d..][i - d] == x;
      }
    }
  }

  lemma DueMeansFrontAll(s: Manager, now: nat, probe: Id)
    requires Sorted(s.recs, s.queue)
    ensures var d := DueCount(s, now, probe);
            forall x | x in s.recs :: x in s.queue[..d] <==> Due(s, x, now)
  {
    forall x | x in s.recs
      ensures x in s.queue[..DueCount(s, now, probe)] <==> Due(s, x, now)
    {
      DueMeansFront(s, now, probe, x);
    }
  }

  /** Exact expiry, whatever the probe's address: the callbacks of exactly the due timers come
      out in queue order; recurring ones go back once, one period after now; one-shot ones are
      disarmed; every other timer is untouched. */
  lemma ExpiryIsExact(s: Manager, now: nat, probe: Id)
    requires Sorted(s.recs, s.queue)
    ensures var d := DueCount(s, now, probe);
            && FiredBy(s, now, probe) == Callbacks(s.recs, s.queue[..d])
            && (forall x | x in s.recs :: x in s.queue[..d] <==> Due(s, x, now))
    ensures var t := ExpireStep(s, now, probe);
            && t.recs.Keys == s.recs.Keys && t.tickled == s.tickled
            && t.previous == (if s.queue == [] then s.previous else now)
            && Sorted(t.recs, t.queue)
            && (forall x :: x in t.queue <==> x in s.queue && (Due(s, x, now) ==> s.recs[x].recurring))
            && (forall x | x in s.recs ::
                  t.recs[x] == if !Due(s, x, now) then s.recs[x]
                               else if s.recs[x].recurring then s.recs[x].(next := Add64(now, s.recs[x].ms))
                               else s.recs[x].(cb := NoCallback))
  {
    var d := DueCount(s, now, probe);
    DueMeansFrontAll(s, now, probe);
    IdleMeansNoneDue(s, now, probe);
    if Idle(s, now) {
      assert s.queue[..d] == [];
    } else {
      FrontAndRest(s, d);
      RequeueIsExact(s.(previous := now, queue := s.queue[d..]), s.queue[..d], now);
    }
  }

  /** Callbacks come out by deadline, those with the same deadline by address. */
  lemma FiredInOrder(s: Manager, now: nat, probe: Id)
    requires Sorted(s.recs, s.queue)
    ensures var fired := FiredBy(s, now, probe);
            && (forall i | 0 <= i < |fired| :: fired[i].id in s.recs && fired[i].cb == s.recs[fired[i].id].cb)
            && forall i, j | 0 <= i < j < |fired| ::
                 var a, b := fired[i].id, fired[j].id;
                 s.recs[a].next < s.recs[b].next || (s.recs[a].next == s.recs[b].next && a < b)
  {
    if !Idle(s, now) {
      var front := s.queue[..DueCount(s, now, probe)];
      assert forall i, j | 0 <= i < j < |front| :: Less(KeyOf(s.recs, front[i]), KeyOf(s.recs, front[j]));
    }
  }

  /** `getNextTimer` and `listExpiredCb` agree: with the set unchanged and no rollover, an expiry
      at or after the reading yields callbacks exactly from the announced moment on. */
  lemma NextAgreesWithExpiry(s: Manager, now: nat, later: nat, probe: Id)
    requires Inv(s) && s.queue != [] && now <= later && !Rollover(s.previous, later)
    ensures FiredBy(NextStep(s), later, probe) != [] <==> later >= now + NextDelay(s, now)
  {
    IdleMeansNoneDue(NextStep(s), later, probe);
    DueIsExact(NextStep(s), later, probe);
  }

  /** "No timer" is announced for the empty set, and for one degenerate deadline only. */
  lemma ForeverIff(s: Manager, now: nat)
    requires Inv(s)
    ensures NextDelay(s, now) == FOREVER <==>
            s.queue == [] || (now == 0 && s.recs[s.queue[0]].next == FOREVER)
  {
    if s.queue != [] {
      assert s.queue[0] in s.recs;
    }
  }

  /** The degenerate deadline can be reached: a timer for the longest delay, added at clock 0. */
  lemma ForeverIsReached()
    ensures var s := Run(Init(0), [Add(0, FOREVER, Callback(7), false, 0)]);
            s.queue == [0] && s.recs[0].next == FOREVER && NextDelay(s, 0) == FOREVER
  {
    var op := Add(0, FOREVER, Callback(7), false, 0);
    FoldSnoc(DoOp, Init(0), [], op);
    assert [] + [op] == [op];
  }

  /** The check for "the clock went back by more than an hour" also fires on any step back within
      the first hour of the clock, because the subtraction wraps; and only then. */
  lemma RolloverIff(previous: nat, now: nat)
    requires previous < TWO_64 && now < TWO_64
    ensures (Rollover(previous, now) <==> now + 3_600_000 < previous) <==> !(now < previous < 3_600_000)
  {
    if previous < HOUR {
      assert Sub64(previous, HOUR) == previous - HOUR + TWO_64;
    } else {
      assert Sub64(previous, HOUR) == previous - HOUR;
    }
  }

  /** Clock reads taken in lock order never look like a rollover. */
  lemma NoRolloverInOrder(previous: nat, now: nat)
    requires previous <= now
    ensures !Rollover(previous, now)
  {
  }

  // ---------------------------------------------------------------- every operation keeps the registry

  /** What one operation may do to the set and to one timer in it. */
  lemma AddKeepsInv(s: Manager, id: Id, ms: nat, cb: Callback, recurring: bool, now: nat)
    requires Inv(s) && id !in s.recs
    ensures var t := AddStep(s, id, ms, cb, recurring, now);
            && Inv(t) && (forall x :: x in t.queue <==> x == id || x in s.queue)
            && t.recs == s.recs[id := Rec(recurring, ms, Add64(now, ms), cb)]
            && t.previous == s.previous && (t.tickled <==> s.tickled || t.queue[0] == id)
  {
    var rec := Rec(recurring, ms, Add64(now, ms), cb);
    OutsiderMayChange(s.recs, s.queue, id, rec);
    InsertKeepsOrder(s.recs[id := rec], s.queue, id);
    InsertAdds(s.recs[id := rec], s.queue, id);
  }

  lemma CancelKeepsInv(s: Manager, id: Id)
    requires Inv(s) && id in s.recs
    ensures var t := CancelStep(s, id);
            && Inv(t)
            && (!Armed(s, id) ==> t == s)
            && (Armed(s, id) ==> t == s.(recs := t.recs, queue := t.queue))
            && (Armed(s, id) ==> t.recs == s.recs[id := s.recs[id].(cb := NoCallback)])
            && (Armed(s, id) ==> forall x :: x in t.queue <==> x in s.queue && x != id)
  {
    if Armed(s, id) {
      var u := Update(s, id, s.recs[id].(cb := NoCallback));
      assert Sorted(u.recs, u.queue);
      EraseFoundRemoves(u, id);
    }
  }

  lemma RefreshKeepsInv(s: Manager, id: Id, now: nat)
    requires Inv(s) && id in s.recs
    ensures var t := RefreshStep(s, id, now);
            && Inv(t)
            && (!Armed(s, id) ==> t == s)
            && (Armed(s, id) ==> t.recs == s.recs[id := s.recs[id].(next := Add64(now, s.recs[id].ms))])
            && (Armed(s, id) ==> t == s.(recs := t.recs, queue := t.queue))
            && (forall x :: x in t.queue <==> x in s.queue)
  {
    ArmedIsFindable(s, id);
    if Armed(s, id) {
      EraseFoundRemoves(s, id);
      MoveTimer(s, id, s.recs[id].(next := Add64(now, s.recs[id].ms)));
    }
  }

  /** `reset` moves an armed timer unless the period it read is the new one and it is not to count from
      now; the old period is counted back from the deadline to where it began. */
  lemma ResetKeepsInv(s: Manager, id: Id, ms: nat, fromNow: bool, now: nat, seen: nat)
    requires Inv(s) && id in s.recs
    ensures var t, rec := ResetStep(s, id, ms, fromNow, now, seen), s.recs[id];
            var moved := Armed(s, id) && (fromNow || ms != seen);
            && Inv(t)
            && (moved && fromNow ==> t.recs == s.recs[id := rec.(ms := ms, next := Add64(now, ms))])
            && (moved && !fromNow ==>
                  t.recs == s.recs[id := rec.(ms := ms, next := Add64(Sub64(rec.next, rec.ms), ms))])
            && (!moved ==> t == s)
            && (forall x :: x in t.queue <==> x in s.queue)
            && t.previous == s.previous
            && (moved ==> t.queue != [] && (t.tickled <==> s.tickled || t.queue[0] == id))
    ensures ResetResult(s, id, ms, fromNow, seen) <==> Armed(s, id) || (ms == seen && !fromNow)
  {
    ArmedIsFindable(s, id);
    if Armed(s, id) {
      EraseFoundRemoves(s, id);
      MoveTimer(s, id, ResetRec(s.recs[id], ms, fromNow, now));
    }
  }

  lemma ExpireKeepsInv(s: Manager, now: nat, probe: Id)
    requires Inv(s)
    ensures Inv(ExpireStep(s, now, probe))
  {
    ExpiryIsExact(s, now, probe);
  }

  lemma OpKeepsInv(s: Manager, op: Op)
    requires Inv(s)
    ensures Inv(DoOp(s, op))
  {
    if Possible(s, op) {
      match op
      case Add(id, ms, cb, recurring, now) => AddKeepsInv(s, id, ms, cb, recurring, now);
      case Cancel(id) => CancelKeepsInv(s, id);
      case Refresh(id, now) => RefreshKeepsInv(s, id, now);
      case Reset(id, ms, fromNow, now, seen) => ResetKeepsInv(s, id, ms, fromNow, now, seen);
      case GetNext(_) =>
      case Expire(now, probe) => ExpireKeepsInv(s, now, probe);
    }
  }

  /** The registry invariant holds after any sequence of operations. */
  lemma {:induction false} RunKeepsInv(s: Manager, ops: seq<Op>)
    requires Inv(s)
    ensures Inv(Run(s, ops))
  {
    if ops != [] {
      var n := |ops| - 1;
      RunKeepsInv(s, ops[..n]);
      OpKeepsInv(Run(s, ops[..n]), ops[n]);
    }
  }

  // ---------------------------------------------------------------- the wake-up flag

  /** The operation puts its timer in front of the set. */
  predicate PutsInFront(s: Manager, op: Op) {
    && Possible(s, op)
    && (op.Add? || (op.Reset? && Armed(s, op.id) && (op.fromNow || op.ms != op.seen)))
    && DoOp(s, op).queue != [] && DoOp(s, op).queue[0] == op.id
  }

  /** Some operation has done so since the last `getNextTimer`. */
  predicate FrontSinceNext(s: Manager, ops: seq<Op>) {
    && ops != [] && !ops[|ops| - 1].GetNext?
    && var front, last := ops[..|ops| - 1], ops[|ops| - 1];
       FrontSinceNext(s, front) || PutsInFront(Run(s, front), last)
  }

  lemma OpFlag(s: Manager, op: Op)
    requires Inv(s)
    ensures DoOp(s, op).tickled <==> !op.GetNext? && (s.tickled || PutsInFront(s, op))
  {
    if Possible(s, op) {
      match op
      case Add(id, ms, cb, recurring, now) => AddKeepsInv(s, id, ms, cb, recurring, now);
      case Cancel(id) => CancelKeepsInv(s, id);
      case Refresh(id, now) => RefreshKeepsInv(s, id, now); ArmedIsFindable(s, id);
      case Reset(id, ms, fromNow, now, seen) => ResetKeepsInv(s, id, ms, fromNow, now, seen);
      case GetNext(_) =>
      case Expire(now, probe) => ExpiryIsExact(s, now, probe);
    }
  }

  /** In any run the flag is up if and only if a timer was put in front since the last `getNextTimer`,
      so it is raised, and the waiter woken, at most once in between. */
  lemma {:induction false} FlagIff(start: nat, ops: seq<Op>)
    ensures Run(Init(start), ops).tickled <==> FrontSinceNext(Init(start), ops)
  {
    if ops != [] {
      var n := |ops| - 1;
      FlagIff(start, ops[..n]);
      RunKeepsInv(Init(start), ops[..n]);
      OpFlag(Run(Init(start), ops[..n]), ops[n]);
    }
  }

  predicate WithCallbacks(ops: seq<Op>) {
    forall i | 0 <= i < |ops| && ops[i].Add? :: ops[i].cb != NoCallback
  }

  lemma ExpireKeepsAllArmed(s: Manager, now: nat, probe: Id)
    requires Inv(s) && AllArmed(s)
    ensures AllArmed(ExpireStep(s, now, probe))
  {
    ExpiryIsExact(s, now, probe);
  }

  lemma OpKeepsAllArmed(s: Manager, op: Op)
    requires Inv(s) && AllArmed(s) && (op.Add? ==> op.cb != NoCallback)
    ensures AllArmed(DoOp(s, op))
  {
    if Possible(s, op) {
      if op.Add? {
        AddKeepsInv(s, op.id, op.ms, op.cb, op.recurring, op.now);
      } else if op.Expire? {
        ExpireKeepsAllArmed(s, op.now, op.probe);
      } else {
        MoversKeepAllArmed(s, op);
      }
    }
  }

  lemma MoversKeepAllArmed(s: Manager, op: Op)
    requires Inv(s) && AllArmed(s) && Possible(s, op) && !op.Add? && !op.Expire?
    ensures AllArmed(DoOp(s, op))
  {
    match op
    case Cancel(id) => CancelKeepsAllArmed(s, id);
    case Refresh(id, now) => RefreshKeepsAllArmed(s, id, now);
    case Reset(id, ms, fromNow, now, seen) => ResetKeepsAllArmed(s, id, ms, fromNow, now, seen);
    case GetNext(_) =>
  }

  lemma CancelKeepsAllArmed(s: Manager, id: Id)
    requires Inv(s) && AllArmed(s) && id in s.recs
    ensures AllArmed(CancelStep(s, id))
  {
    CancelKeepsInv(s, id);
  }

  lemma RefreshKeepsAllArmed(s: Manager, id: Id, now: nat)
    requires Inv(s) && AllArmed(s) && id in s.recs
    ensures AllArmed(RefreshStep(s, id, now))
  {
    RefreshKeepsInv(s, id, now);
  }

  lemma ResetKeepsAllArmed(s: Manager, id: Id, ms: nat, fromNow: bool, now: nat, seen: nat)
    requires Inv(s) && AllArmed(s) && id in s.recs
    ensures AllArmed(ResetStep(s, id, ms, fromNow, now, seen))
  {
    ResetKeepsInv(s, id, ms, fromNow, now, seen);
  }

  /** When every timer is made with a callback, having one and being in the set are the same. */
  lemma {:induction false} ArmedIffQueued(ops: seq<Op>, start: nat, id: Id)
    requires WithCallbacks(ops)
    ensures AllArmed(Run(Init(start), ops))
    ensures Armed(Run(Init(start), ops), id) <==> id in Run(Init(start), ops).queue
  {
    RunKeepsInv(Init(start), ops);
    if ops != [] {
      var n := |ops| - 1;
      ArmedIffQueued(ops[..n], start, id);
      RunKeepsInv(Init(start), ops[..n]);
      OpKeepsAllArmed(Run(Init(start), ops[..n]), ops[n]);
    }
  }

  // ---------------------------------------------------------------- accounting over whole runs

  function FiredIn(s: Manager, op: Op): seq<Fired> {
    if op.Expire? then FiredBy(s, op.now, op.probe) else []
  }

  function CountOf(fired: seq<Fired>, id: Id): nat {
    if fired == [] then 0
    else CountOf(fired[..|fired| - 1], id) + if fired[|fired| - 1].id == id then 1 else 0
  }

  /** How often a run hands out the timer's callback. */
  function Fires(s: Manager, ops: seq<Op>, id: Id): nat {
    if ops == [] then 0
    else
      var n := |ops| - 1;
      Fires(s, ops[..n], id) + CountOf(FiredIn(Run(s, ops[..n]), ops[n]), id)
  }

  predicate CancelsIt(s: Manager, op: Op, id: Id) {
    op == Cancel(id) && Armed(s, id)
  }

  /** How often a run cancels the timer, with `cancel` returning true. */
  function Cancels(s: Manager, ops: seq<Op>, id: Id): nat {
    if ops == [] then 0
    else
      var n := |ops| - 1;
      Cancels(s, ops[..n], id) + if CancelsIt(Run(s, ops[..n]), ops[n], id) then 1 else 0
  }

  lemma {:induction false} CountInDistinct(recs: map<Id, Rec>, ids: seq<Id>, id: Id)
    requires Known(recs, ids) && Distinct(ids)
    ensures CountOf(Callbacks(recs, ids), id) == if id in ids then 1 else 0
  {
    if ids != [] {
      var n := |ids| - 1;
      var front, last := ids[..n], ids[n];
      assert ids == front + [last];
      CountInDistinct(recs, front, id);
      assert Callbacks(recs, ids)[..n] == Callbacks(recs, front);
    }
  }

  lemma ExpiryCount(s: Manager, now: nat, probe: Id, id: Id)
    requires Inv(s) && id in s.recs
    ensures CountOf(FiredBy(s, now, probe), id) == if Due(s, id, now) then 1 else 0
  {
    DueMeansFront(s, now, probe, id);
    IdleMeansNoneDue(s, now, probe);
    var d := DueCount(s, now, probe);
    assert Distinct(s.queue[..d]);
    CountInDistinct(s.recs, s.queue[..d], id);
    if Idle(s, now) {
      assert s.queue[..d] == [];
    }
  }

  lemma ExpireAccounts(s: Manager, now: nat, probe: Id, id: Id)
    requires Inv(s) && id in s.recs
    ensures var t, due := ExpireStep(s, now, probe), Due(s, id, now);
            && CountOf(FiredBy(s, now, probe), id) == (if due then 1 else 0)
            && id in t.recs && t.recs[id].recurring == s.recs[id].recurring
            && (id in t.queue <==> id in s.queue && (due ==> s.recs[id].recurring))
            && (Armed(t, id) <==> Armed(s, id) && (due ==> s.recs[id].recurring))
  {
    ExpiryIsExact(s, now, probe);
    ExpiryCount(s, now, probe, id);
  }

  /** Operations that leave the set's members and everyone's callback alone. */
  lemma RefreshAccounts(s: Manager, op: Op, id: Id)
    requires Inv(s) && id in s.recs && op.Refresh?
    ensures var t := DoOp(s, op);
            && id in t.recs && t.recs[id].recurring == s.recs[id].recurring
            && (id in t.queue <==> id in s.queue) && t.recs[id].cb == s.recs[id].cb
  {
    if Possible(s, op) {
      RefreshKeepsInv(s, op.id, op.now);
      ArmedIsFindable(s, op.id);
    }
  }

  lemma ResetAccounts(s: Manager, op: Op, id: Id)
    requires Inv(s) && id in s.recs && op.Reset?
    ensures var t := DoOp(s, op);
            && id in t.recs && t.recs[id].recurring == s.recs[id].recurring
            && (id in t.queue <==> id in s.queue) && t.recs[id].cb == s.recs[id].cb
  {
    if Possible(s, op) {
      ResetKeepsInv(s, op.id, op.ms, op.fromNow, op.now, op.seen);
    }
  }

  lemma AddAccounts(s: Manager, op: Op, id: Id)
    requires Inv(s) && id in s.recs && op.Add?
    ensures var t := DoOp(s, op);
            && id in t.recs && t.recs[id] == s.recs[id]
            && (id in t.queue <==> id in s.queue)
  {
    if Possible(s, op) {
      AddKeepsInv(s, op.id, op.ms, op.cb, op.recurring, op.now);
    }
  }

  lemma CancelAccounts(s: Manager, op: Op, id: Id)
    requires Inv(s) && id in s.recs && op.Cancel?
    ensures var t := DoOp(s, op);
            && id in t.recs && t.recs[id].recurring == s.recs[id].recurring
            && (id in t.queue <==> id in s.queue && !CancelsIt(s, op, id))
            && (Armed(t, id) <==> Armed(s, id) && !CancelsIt(s, op, id))
  {
    if Possible(s, op) {
      CancelKeepsInv(s, op.id);
    }
  }

  /** One operation, seen by one timer: it is out of the set afterwards exactly when it was
      cancelled or, being one-shot, collected; and the same goes for its callback. */
  lemma StepAccounts(s: Manager, op: Op, id: Id)
    requires Inv(s) && id in s.recs
    ensures var t, c := DoOp(s, op), CountOf(FiredIn(s, op), id);
            var gone := CancelsIt(s, op, id) || (!s.recs[id].recurring && c > 0);
            && id in t.recs && t.recs[id].recurring == s.recs[id].recurring
            && c <= 1 && (c > 0 ==> id in s.queue) && (CancelsIt(s, op, id) ==> c == 0)
            && (id in t.queue <==> id in s.queue && !gone)
            && (Armed(t, id) <==> Armed(s, id) && !gone)
  {
    if op.Expire? {
      ExpireAccounts(s, op.now, op.probe, id);
    } else if op.Add? {
      AddAccounts(s, op, id);
    } else if op.Cancel? {
      CancelAccounts(s, op, id);
    } else if op.Refresh? {
      RefreshAccounts(s, op, id);
    } else if op.Reset? {
      ResetAccounts(s, op, id);
    }
  }

  /** Whole-run accounting: after any run a timer is in the set, and can be cancelled, exactly if
      it was so at the start, was never cancelled with success, and recurs or was never collected.
      A one-shot timer is collected or cancelled at most once in all; one outside the set never. */
  lemma {:induction false} TimerAccounting(s: Manager, ops: seq<Op>, id: Id)
    requires Inv(s) && id in s.recs
    ensures var t, c, k := Run(s, ops), Fires(s, ops, id), Cancels(s, ops, id);
            && id in t.recs && t.recs[id].recurring == s.recs[id].recurring
            && (id in t.queue <==> id in s.queue && k == 0 && (s.recs[id].recurring || c == 0))
            && (Armed(t, id) <==> Armed(s, id) && k == 0 && (s.recs[id].recurring || c == 0))
            && k <= 1 && (!s.recs[id].recurring ==> c + k <= 1)
            && (id !in s.queue ==> c == 0 && k == 0)
  {
    if ops != [] {
      var n := |ops| - 1;
      TimerAccounting(s, ops[..n], id);
      RunKeepsInv(s, ops[..n]);
      StepAccounts(Run(s, ops[..n]), ops[n], id);
    }
  }

  /** After a `cancel` that returned true the callback is never collected again. */
  lemma CancelIsFinal(s: Manager, id: Id, after: seq<Op>)
    requires Inv(s) && id in s.recs && Armed(s, id)
    ensures var t := DoOp(s, Cancel(id));
            Fires(t, after, id) == 0 && !Armed(Run(t, after), id)
  {
    CancelKeepsInv(s, id);
    TimerAccounting(DoOp(s, Cancel(id)), after, id);
  }
}
