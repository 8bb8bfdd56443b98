/**
 Timers and their manager as objects.  Every statement that changes a timer or the set keeps
 the objects equal to a protocol state, so each public operation is exactly one protocol step.
 */
module TimerObjects {
  import opened Machine
  import opened TimerProtocol
  import Q = TimerProperties

  class Timer {
    const id: Id
    const recurring: bool
    const manager: TimerManager
    var ms: nat
    var next: nat
    var cb: Callback

    constructor (id: Id, ms: nat, cb: Callback, recurring: bool, manager: TimerManager, now: nat)
      ensures this.id == id && this.manager == manager
      ensures AsRec() == Rec(recurring, ms, Add64(now, ms), cb)
    {
      this.id, this.recurring, this.manager := id, recurring, manager;
      this.ms, this.cb := ms, cb;
      this.next := Add64(now, ms);
    }

    /** What the protocol records of this timer. */
    function AsRec(): Rec
      reads this
    {
      Rec(recurring, ms, next, cb)
    }

    function AsKey(): Key
      reads this
    {
      Key(next, id)
    }

    ghost predicate Registered()
      reads manager
    {
      id in manager.all && manager.all[id] == this
    }

    /** Changes this timer's own fields. */
    method Assign(ms: nat, next: nat, cb: Callback)
      requires manager.Coupled() && Registered()
      modifies manager`view, this
      ensures manager.Coupled()
      ensures manager.view == Update(old(manager.view), id, Rec(recurring, ms, next, cb))
      ensures AsRec() == Rec(recurring, ms, next, cb)
    {
      this.ms, this.next, this.cb := ms, next, cb;
      manager.view := Update(manager.view, id, AsRec());
    }

    method Cancel() returns (ok: bool)
      requires manager.Valid() && Registered()
      modifies manager`timers, manager`view, this
      ensures manager.Valid()
      ensures manager.view == CancelStep(old(manager.view), id)
      ensures ok == Armed(old(manager.view), id)
    {
      Q.CancelKeepsInv(manager.view, id);
      Q.ArmedIsFindable(manager.view, id);
      ok := CancelLocked();
    }

    method CancelLocked() returns (ok: bool)
      requires manager.Coupled() && Registered()
      requires Armed(manager.view, id) ==> Findable(manager.view, id)
      modifies manager`timers, manager`view, this
      ensures manager.Coupled()
      ensures manager.view == CancelStep(old(manager.view), id)
      ensures ok == Armed(old(manager.view), id)
    {
      assert manager.view.recs[id] == AsRec();
      if cb != NoCallback {
        FindIgnoresCallbacks(manager.view, id, AsRec().(cb := NoCallback));
        Assign(ms, next, NoCallback);
        var found := manager.Unlink(this);
        assert found;
        return true;
      }
      return false;
    }

    method Refresh(now: nat) returns (ok: bool)
      requires manager.Valid() && Registered()
      modifies manager`timers, manager`view, this
      ensures manager.Valid()
      ensures manager.view == RefreshStep(old(manager.view), id, now)
      ensures ok == Armed(old(manager.view), id)
    {
      Q.RefreshKeepsInv(manager.view, id, now);
      Q.ArmedIsFindable(manager.view, id);
      ok := RefreshLocked(now);
    }

    method RefreshLocked(now: nat) returns (ok: bool)
      requires manager.Coupled() && Registered()
      modifies manager`timers, manager`view, this
      ensures manager.Coupled()
      ensures manager.view == RefreshStep(old(manager.view), id, now)
      ensures ok == Findable(old(manager.view), id)
    {
      assert manager.view.recs[id] == AsRec();
      if cb == NoCallback {
        return false;
      }
      var found := manager.Unlink(this);
      if !found {
        return false;
      }
      Assign(ms, Add64(now, ms), cb);
      var _ := manager.InsertInSet(this);
      return true;
    }

    /** A whole `reset` with no other thread in between. */
    method Reset(newMs: nat, fromNow: bool, now: nat) returns (ok: bool)
      requires manager.Valid() && Registered()
      modifies manager`timers, manager`view, manager`tickled, manager`wakeups, this
      ensures manager.Valid()
      ensures manager.view == ResetStep(old(manager.view), id, newMs, fromNow, now, old(ms))
      ensures ok == ResetResult(old(manager.view), id, newMs, fromNow, old(ms))
      ensures manager.wakeups == old(manager.wakeups) + if manager.tickled && !old(manager.tickled) then 1 else 0
    {
      ok := ResetAfter(newMs, fromNow, now, ms);
    }

    /** What `reset` does after it has read the period as `seen`, which another thread may have
        changed by the time the lock is taken. */
    method ResetAfter(newMs: nat, fromNow: bool, now: nat, seen: nat) returns (ok: bool)
      requires manager.Valid() && Registered()
      modifies manager`timers, manager`view, manager`tickled, manager`wakeups, this
      ensures manager.Valid()
      ensures manager.view == ResetStep(old(manager.view), id, newMs, fromNow, now, seen)
      ensures ok == ResetResult(old(manager.view), id, newMs, fromNow, seen)
      ensures manager.wakeups == old(manager.wakeups) + if manager.tickled && !old(manager.tickled) then 1 else 0
    {
      if newMs == seen && !fromNow {
        return true;
      }
      Q.ResetKeepsInv(manager.view, id, newMs, fromNow, now, seen);
      ok := ResetLocked(newMs, fromNow, now, seen);
    }

    method ResetLocked(newMs: nat, fromNow: bool, now: nat, ghost seen: nat) returns (ok: bool)
      requires manager.Coupled() && Registered() && !ResetSkips(newMs, fromNow, seen)
      modifies manager`timers, manager`view, manager`tickled, manager`wakeups, this
      ensures manager.Coupled()
      ensures manager.view == ResetStep(old(manager.view), id, newMs, fromNow, now, seen)
      ensures ok == ResetResult(old(manager.view), id, newMs, fromNow, seen)
      ensures manager.wakeups == old(manager.wakeups) + if manager.tickled && !old(manager.tickled) then 1 else 0
    {
      assert manager.view.recs[id] == AsRec();
      if cb == NoCallback {
        return false;
      }
      var found := manager.Unlink(this);
      if !found {
        return false;
      }
      var start := if fromNow then now else Sub64(next, ms);
      Assign(newMs, Add64(start, newMs), cb);
      manager.AddInSet(this);
      return true;
    }
  }

  /** What `n` turns of the loop over the expired timers have done. */
  ghost function RequeueFirst(s: Manager, ids: seq<Id>, n: nat, now: nat): (t: Manager)
    requires Known(s.recs, ids) && n <= |ids|
    ensures t.recs.Keys == s.recs.Keys
  {
    if n == 0 then s else RequeueOne(RequeueFirst(s, ids, n - 1, now), ids[n - 1], now)
  }

  lemma {:induction false} RequeueByTurns(s: Manager, ids: seq<Id>, n: nat, now: nat)
    requires Known(s.recs, ids) && n <= |ids|
    ensures RequeueFirst(s, ids, n, now) == Requeue(s, ids[..n], now)
  {
    if n > 0 {
      RequeueByTurns(s, ids, n - 1, now);
      assert ids[..n][..n - 1] == ids[..n - 1];
    }
  }

  /** Turn `i` of the loop takes `turns(i)` to `turns(i + 1)` and finds its timer as it was in `recs`. */
  ghost predicate Turn(turns: nat -> Manager, recs: map<Id, Rec>, ids: seq<Id>, i: nat, now: nat) {
    && i < |ids| && ids[i] in turns(i).recs && ids[i] in recs
    && turns(i + 1) == RequeueOne(turns(i), ids[i], now)
    && turns(i).recs[ids[i]] == recs[ids[i]]
  }

  ghost function Turns(s: Manager, ids: seq<Id>, now: nat): nat -> Manager
    requires Known(s.recs, ids)
  {
    (i: nat) => if i <= |ids| then RequeueFirst(s, ids, i, now) else s
  }

  lemma TurnsFollow(s: Manager, ids: seq<Id>, i: nat, now: nat)
    requires Known(s.recs, ids) && Q.Distinct(ids) && i < |ids|
    ensures Turn(Turns(s, ids, now), s.recs, ids, i, now)
  {
    RequeueByTurns(s, ids, i, now);
    assert ids[i] !in ids[..i];
    Q.RequeueSparesOthers(s, ids[..i], now, ids[i]);
  }

  /** The turns of the whole loop, as a function of how many are done. */
  lemma AllTurns(s: Manager, ids: seq<Id>, now: nat) returns (turns: nat -> Manager)
    requires Known(s.recs, ids) && Q.Distinct(ids)
    ensures turns(0) == s && turns(|ids|) == Requeue(s, ids, now)
    ensures forall i {:trigger Turn(turns, s.recs, ids, i, now)} | 0 <= i < |ids| :: Turn(turns, s.recs, ids, i, now)
  {
    turns := Turns(s, ids, now);
    forall i | 0 <= i < |ids|
      ensures Turn(turns, s.recs, ids, i, now)
    {
      TurnsFollow(s, ids, i, now);
    }
    RequeueByTurns(s, ids, |ids|, now);
    assert ids[..|ids|] == ids;
  }

  /** Ordered search looks at deadlines only. */
  lemma FindIgnoresCallbacks(s: Manager, id: Id, rec: Rec)
    requires id in s.recs && rec.next == s.recs[id].next
    ensures TimerProtocol.Find(s.recs[id := rec], s.queue, id) == TimerProtocol.Find(s.recs, s.queue, id)
  {
    LowerBoundIgnoresCallbacks(s.recs, s.queue, id, rec);
  }

  lemma {:induction false} LowerBoundIgnoresCallbacks(recs: map<Id, Rec>, queue: seq<Id>, id: Id, rec: Rec)
    requires Known(recs, queue) && id in recs && rec.next == recs[id].next
    ensures TimerProtocol.LowerBound(recs[id := rec], queue, KeyOf(recs, id))
         == TimerProtocol.LowerBound(recs, queue, KeyOf(recs, id))
  {
    if queue != [] {
      LowerBoundIgnoresCallbacks(recs, queue[1..], id, rec);
    }
  }

  class TimerManager {
    var timers: seq<Timer>
    var tickled: bool
    var previousTime: nat
    /** Calls of `onTimerInsertedAtFront`. */
    var wakeups: nat

    ghost var view: Manager
    /** Every timer ever made, by address. */
    ghost var all: map<Id, Timer>

    ghost predicate Matches(t: Timer, id: Id, rec: Rec)
      reads t
    {
      t.id == id && t.manager == this && t.AsRec() == rec
    }

    ghost predicate Coupled()
      reads this, all.Values
    {
      && all.Keys == view.recs.Keys
      && (forall id | id in all :: Matches(all[id], id, view.recs[id]))
      && |timers| == |view.queue|
      && (forall i | 0 <= i < |timers| :: timers[i] == all[view.queue[i]])
      && tickled == view.tickled && previousTime == view.previous
    }

    ghost predicate Valid()
      reads this, all.Values
    {
      Coupled() && Q.Inv(view)
    }

    constructor (now: nat)
      ensures Valid() && view == Init(now) && all == map[]
    {
      timers, tickled, previousTime, wakeups := [], false, now, 0;
      view, all := Init(now), map[];
    }

    // -------------------------------------------------------------- the ordered set

    method LowerBound(key: Key) returns (pos: nat)
      requires Coupled()
      ensures pos == TimerProtocol.LowerBound(view.recs, view.queue, key)
    {
      pos := 0;
      while pos < |timers| && Less(timers[pos].AsKey(), key)
        invariant pos <= |timers|
        invariant TimerProtocol.LowerBound(view.recs, view.queue, key)
               == pos + TimerProtocol.LowerBound(view.recs, view.queue[pos..], key)
      {
        assert view.queue[pos..][1..] == view.queue[pos + 1..];
        pos := pos + 1;
      }
    }

    method Find(t: Timer) returns (pos: nat)
      requires Coupled() && t.manager == this && t.Registered()
      ensures pos == TimerProtocol.Find(view.recs, view.queue, t.id)
    {
      pos := LowerBound(t.AsKey());
      if !(pos < |timers| && !Less(t.AsKey(), timers[pos].AsKey())) {
        pos := |timers|;
      }
    }

    /** Looks the timer up and takes it out. */
    method Unlink(t: Timer) returns (found: bool)
      requires Coupled() && t.manager == this && t.Registered()
      modifies this`timers, this`view
      ensures Coupled() && view == EraseFound(old(view), t.id)
      ensures found <==> TimerProtocol.Find(old(view.recs), old(view.queue), t.id) < |old(view.queue)|
    {
      var pos := Find(t);
      found := pos < |timers|;
      if found {
        timers := timers[..pos] + timers[pos + 1..];
        view := view.(queue := Erase(view.queue, pos));
      }
    }

    method InsertAt(t: Timer, pos: nat)
      requires Coupled() && t.manager == this && t.Registered() && pos <= |timers|
      modifies this`timers, this`view
      ensures Coupled()
      ensures view == old(view).(queue := old(view).queue[..pos] + [t.id] + old(view).queue[pos..])
    {
      timers := timers[..pos] + [t] + timers[pos..];
      view := view.(queue := view.queue[..pos] + [t.id] + view.queue[pos..]);
    }

    method InsertInSet(t: Timer) returns (pos: nat)
      requires Coupled() && t.manager == this && t.Registered()
      modifies this`timers, this`view
      ensures Coupled() && view == old(view).(queue := Insert(old(view.recs), old(view.queue), t.id))
      ensures pos < |view.queue| && view.queue[pos] == t.id
    {
      pos := LowerBound(t.AsKey());
      if !(pos < |timers| && timers[pos] == t) {
        InsertAt(t, pos);
      }
    }

    /** `addTimer(val, lock)`: insert, and wake the waiter if the timer came in front and nobody
        has woken it since the last `getNextTimer`. */
    method AddInSet(t: Timer)
      requires Coupled() && t.manager == this && t.Registered()
      modifies this`timers, this`view, this`tickled, this`wakeups
      ensures Coupled() && view == InsertTimer(old(view), t.id)
      ensures wakeups == old(wakeups) + if tickled && !old(tickled) then 1 else 0
    {
      var it := InsertInSet(t);
      var atFront := timers[0] == t && !tickled;
      if atFront {
        tickled := true;
      }
      if atFront {
        wakeups := wakeups + 1;
      }
      view := view.(tickled := tickled);
    }

    // -------------------------------------------------------------- public operations

    /** `id` is the address the allocation returns. */
    method AddTimer(ms: nat, cb: Callback, recurring: bool, now: nat, id: Id) returns (timer: Timer)
      requires Valid() && id !in all
      modifies this
      ensures Valid() && fresh(timer) && all == old(all)[id := timer]
      ensures view == AddStep(old(view), id, ms, cb, recurring, now)
      ensures wakeups == old(wakeups) + if tickled && !old(tickled) then 1 else 0
    {
      Q.AddKeepsInv(view, id, ms, cb, recurring, now);
      timer := new Timer(id, ms, cb, recurring, this, now);
      all := all[id := timer];
      view := Update(view, id, timer.AsRec());
      AddInSet(timer);
    }

    method GetNextTimer(now: nat) returns (delay: nat)
      requires Valid()
      modifies this`tickled, this`view
      ensures Valid() && view == NextStep(old(view)) && delay == NextDelay(old(view), now)
    {
      tickled := false;
      view := NextStep(view);
      if timers == [] {
        return FOREVER;
      }
      var next := timers[0];
      assert view.recs[view.queue[0]] == next.AsRec();
      if now >= next.next {
        return 0;
      } else {
        return next.next - now;
      }
    }

    method DetectClockRollover(now: nat) returns (rollover: bool)
      requires Coupled()
      modifies this`previousTime, this`view
      ensures Coupled() && rollover == Rollover(old(previousTime), now)
      ensures view == old(view).(previous := now)
    {
      rollover := false;
      if now < previousTime && now < Sub64(previousTime, HOUR) {
        rollover := true;
      }
      previousTime := now;
      view := view.(previous := now);
    }

    /** How far the expired timers reach. */
    method ExpiredEnd(now: nat, probe: Id, rollover: bool, ghost s: Manager) returns (it: nat)
      requires Coupled() && view == s.(previous := now) && rollover == Rollover(s.previous, now)
      ensures it == DueCount(s, now, probe)
    {
      if rollover {
        it := |timers|;
      } else {
        it := LowerBound(Key(now, probe));
      }
      while it < |timers| && timers[it].next == now
        invariant it <= |timers|
        invariant DueCount(s, now, probe) ==
                  if rollover then |timers| else SkipEqual(view.recs, view.queue, it, now)
      {
        assert timers[it].AsRec() == view.recs[view.queue[it]];
        it := it + 1;
      }
      if it < |timers| {
        assert timers[it].AsRec() == view.recs[view.queue[it]];
      }
    }

    /** Puts one expired timer back, or disarms it, and hands out its callback. */
    method CollectOne(timer: Timer, now: nat) returns (cb: Callback)
      requires Coupled() && timer.manager == this && timer.Registered()
      modifies this`timers, this`view, timer
      ensures Coupled() && view == RequeueOne(old(view), timer.id, now)
      ensures cb == old(view).recs[timer.id].cb
    {
      assert timer.AsRec() == view.recs[timer.id];
      cb := timer.cb;
      if timer.recurring {
        timer.next := Add64(now, timer.ms);
        view := Update(view, timer.id, timer.AsRec());
        var _ := InsertInSet(timer);
      } else {
        timer.cb := NoCallback;
        view := Update(view, timer.id, timer.AsRec());
      }
    }

    /** One turn of the loop over the expired timers. */
    method CollectNth(timer: Timer, i: nat, ghost turns: nat -> Manager, ghost recs: map<Id, Rec>,
                      ghost ids: seq<Id>, now: nat)
      returns (cb: Callback)
      requires Coupled() && Turn(turns, recs, ids, i, now) && view == turns(i)
      requires ids[i] in all && timer == all[ids[i]]
      modifies this`timers, this`view, timer
      ensures Coupled() && view == turns(i + 1) && cb == recs[ids[i]].cb
    {
      cb := CollectOne(timer, now);
    }

    /** The loop over the expired timers. */
    method Collect(expired: seq<Timer>, ghost turns: nat -> Manager, ghost recs: map<Id, Rec>,
                   ghost ids: seq<Id>, now: nat)
      returns (cbs: seq<Callback>)
      requires Coupled() && |expired| == |ids| && Known(recs, ids) && view == turns(0)
      requires forall i | 0 <= i < |ids| :: ids[i] in all && expired[i] == all[ids[i]]
      requires forall i {:trigger Turn(turns, recs, ids, i, now)} | 0 <= i < |ids| :: Turn(turns, recs, ids, i, now)
      modifies this`timers, this`view, expired
      ensures Coupled() && view == turns(|ids|)
      ensures |cbs| == |ids| && forall i | 0 <= i < |ids| :: cbs[i] == recs[ids[i]].cb
    {
      cbs := [];
      for i := 0 to |expired|
        invariant view == turns(i)
        invariant Coupled()
        invariant |cbs| == i && forall j | 0 <= j < i :: cbs[j] == recs[ids[j]].cb
      {
        var cb := CollectNth(expired[i], i, turns, recs, ids, now);
        cbs := cbs + [cb];
      }
    }

    /** Cuts the first `it` timers off the set and collects them. */
    method CollectFront(it: nat, now: nat) returns (cbs: seq<Callback>)
      requires Coupled() && it <= |timers| && Q.Distinct(view.queue)
      modifies this`timers, this`view, all.Values
      ensures Coupled()
      ensures view == Requeue(old(view).(queue := old(view).queue[it..]), old(view).queue[..it], now)
      ensures |cbs| == it && forall i | 0 <= i < it :: cbs[i] == old(view).recs[old(view).queue[i]].cb
    {
      ghost var ids := view.queue[..it];
      var expired := CutFront(it);
      ghost var turns := AllTurns(view, ids, now);
      cbs := Collect(expired, turns, view.recs, ids, now);
    }

    /** `erase(begin, it)`, after the timers have been copied. */
    method CutFront(it: nat) returns (expired: seq<Timer>)
      requires Coupled() && it <= |timers|
      modifies this`timers, this`view
      ensures view == old(view).(queue := old(view).queue[it..])
      ensures |expired| == it
      ensures forall i | 0 <= i < it :: old(view).queue[i] in all && expired[i] == all[old(view).queue[i]]
      ensures Coupled()
    {
      expired := timers[..it];
      timers := timers[it..];
      view := view.(queue := view.queue[it..]);
    }

    /** `listExpiredCb`; `probe` is the address the probe timer happens to get. */
    method ListExpiredCb(now: nat, probe: Id) returns (cbs: seq<Callback>)
      requires Valid()
      modifies this`timers, this`view, this`previousTime, all.Values
      ensures Valid() && view == ExpireStep(old(view), now, probe)
      ensures var fired := FiredBy(old(view), now, probe);
              |cbs| == |fired| && forall i | 0 <= i < |fired| :: cbs[i] == fired[i].cb
    {
      Q.ExpireKeepsInv(view, now, probe);
      Q.SortedIsDistinct(view);
      cbs := ListExpiredLocked(now, probe);
    }

    method ListExpiredLocked(now: nat, probe: Id) returns (cbs: seq<Callback>)
      requires Coupled() && Q.Distinct(view.queue)
      modifies this`timers, this`view, this`previousTime, all.Values
      ensures Coupled() && view == ExpireStep(old(view), now, probe)
      ensures var fired := FiredBy(old(view), now, probe);
              |cbs| == |fired| && forall i | 0 <= i < |fired| :: cbs[i] == fired[i].cb
    {
      ghost var s := view;
      if timers == [] {
        return [];
      }
      var rollover := DetectClockRollover(now);
      assert view.recs[view.queue[0]] == timers[0].AsRec();
      if !rollover && timers[0].next > now {
        return [];
      }
      var it := ExpiredEnd(now, probe, rollover, s);
      cbs := CollectFront(it, now);
    }

    method HasTimer() returns (b: bool)
      requires Valid()
      ensures b <==> view.queue != []
    {
      b := timers != [];
    }
  }
}
