/**
 The coroutine scheduler's task queue, its count of active threads and its stop test, as a
 step machine over any number of worker threads.  The lock protects the queue; the count is
 raised under the lock but lowered without it.
 */
module SchedulerProtocol {
  import opened Sequences

  type Tid = int

  const ANY_THREAD: Tid := -1

  datatype Work = NoWork | FiberWork(fiber: nat) | CallbackWork(cb: nat)

  /** `ticket` numbers the scheduled tasks; it tells equal tasks apart. */
  datatype Task = Task(work: Work, thread: Tid, ticket: nat)

  // ---------------------------------------------------------------- the queue scan

  predicate PinnedElsewhere(task: Task, tid: Tid) {
    task.thread != ANY_THREAD && task.thread != tid
  }

  /** `running` are the tickets whose fiber the scan saw in state RUNNING. */
  predicate Busy(task: Task, running: set<nat>) {
    task.work.FiberWork? && task.ticket in running
  }

  predicate Runnable(task: Task, tid: Tid, running: set<nat>) {
    !PinnedElsewhere(task, tid) && !Busy(task, running)
  }

  /** Position of the first task this thread may run, or the end of the queue. */
  function FirstRunnable(queue: seq<Task>, tid: Tid, running: set<nat>): (pos: nat)
    ensures pos <= |queue|
    ensures forall i | 0 <= i < pos :: !Runnable(queue[i], tid, running)
    ensures pos < |queue| ==> Runnable(queue[pos], tid, running)
  {
    if queue == [] || Runnable(queue[0], tid, running) then 0
    else 1 + FirstRunnable(queue[1..], tid, running)
  }

  function Without(queue: seq<Task>, pos: nat): seq<Task> {
    if pos < |queue| then queue[..pos] + queue[pos + 1..] else queue
  }

  /** Whether the scan asks for another thread to be woken. */
  predicate Tickles(queue: seq<Task>, tid: Tid, running: set<nat>) {
    var pos := FirstRunnable(queue, tid, running);
    || (exists i :: 0 <= i < pos && PinnedElsewhere(queue[i], tid))
    || pos + 1 < |queue|
  }

  /** A task this thread has to pass over: it names another thread, or its fiber is running. */
  predicate PassedOver(task: Task, tid: Tid, running: set<nat>) {
    (task.thread != -1 && task.thread != tid) || (task.work.FiberWork? && task.ticket in running)
  }

  /** The scan takes one task out of the queue and keeps the order of the rest: the first one that is
      for any thread or for this one, and not a running fiber. */
  lemma ScanTakesFirstRunnable(queue: seq<Task>, tid: Tid, running: set<nat>)
    requires FirstRunnable(queue, tid, running) < |queue|
    ensures var pos := FirstRunnable(queue, tid, running);
            queue == Without(queue, pos)[..pos] + [queue[pos]] + Without(queue, pos)[pos..]
    ensures var pos := FirstRunnable(queue, tid, running);
            && (queue[pos].thread == -1 || queue[pos].thread == tid)
            && !PassedOver(queue[pos], tid, running)
            && forall i | 0 <= i < pos :: PassedOver(queue[i], tid, running)
  {
    PutBack(queue, FirstRunnable(queue, tid, running));
  }

  lemma PutBack(queue: seq<Task>, pos: nat)
    requires pos < |queue|
    ensures queue == Without(queue, pos)[..pos] + [queue[pos]] + Without(queue, pos)[pos..]
  {
    var rest := Without(queue, pos);
    assert rest[..pos] == queue[..pos];
    assert rest[pos..] == queue[pos + 1..];
  }

  /** No task is taken exactly when every task is pinned elsewhere or a running fiber. */
  lemma NothingToTakeIff(queue: seq<Task>, tid: Tid, running: set<nat>)
    ensures FirstRunnable(queue, tid, running) == |queue|
            <==> forall i | 0 <= i < |queue| :: PassedOver(queue[i], tid, running)
  {
    var pos := FirstRunnable(queue, tid, running);
    assert pos < |queue| ==> Runnable(queue[pos], tid, running);
  }

  /** The scan wakes another thread unless every task left behind is there only because its fiber
      is running. */
  lemma NoTickleMeansAllBusy(queue: seq<Task>, tid: Tid, running: set<nat>)
    requires !Tickles(queue, tid, running)
    ensures var rest := Without(queue, FirstRunnable(queue, tid, running));
            forall i | 0 <= i < |rest| :: Busy(rest[i], running) && !PinnedElsewhere(rest[i], tid)
  {
    var pos := FirstRunnable(queue, tid, running);
    assert Without(queue, pos) == queue[..pos];
  }

  /** It does so exactly if tasks are left behind the one taken, or one in front names another
      thread. */
  lemma TicklesIff(queue: seq<Task>, tid: Tid, running: set<nat>)
    ensures var pos := FirstRunnable(queue, tid, running);
            Tickles(queue, tid, running) <==>
              exists i :: 0 <= i < |queue| && (i > pos || (i < pos && queue[i].thread != -1 && queue[i].thread != tid))
  {
    var pos := FirstRunnable(queue, tid, running);
    if pos + 1 < |queue| {
      assert queue[pos + 1] in queue;
    }
    if i :| 0 <= i < pos && PinnedElsewhere(queue[i], tid) {
      assert queue[i].thread != -1 && queue[i].thread != tid;
    }
  }

  // ---------------------------------------------------------------- state

  /** A caller of `stopping()` between its reads; it holds the lock all the while. */
  datatype Check = NoCheck | Entered | QueueEmpty

  datatype State = State(
    queue: seq<Task>,          // m_tasks
    active: int,               // m_activeThreadCount
    stop: bool,                // m_stopping
    check: Check,
    inFlight: map<Tid, Task>,  // what each worker holds between pick and decrement
    finished: set<nat>,        // history: tickets of completed tasks
    issued: nat                // history: tasks scheduled so far
  )

  datatype Source = Outside | InFlightTask(tid: Tid)

  datatype Step =
    | Schedule(source: Source, work: Work, thread: Tid)
    | Pick(tid: Tid, running: set<nat>)
    | Finish(tid: Tid)
    | RequestStop
    | CheckEnter
    | CheckQueue
    | CheckCount

  function Init(): State { State([], 0, false, NoCheck, map[], {}, 0) }

  /** The lock is free unless somebody is inside `stopping()`; only a task that is in flight can
      schedule from inside; a worker holds one task at a time. */
  predicate Enabled(s: State, step: Step) {
    match step
    case Schedule(source, _, _) => s.check == NoCheck && (source.InFlightTask? ==> source.tid in s.inFlight)
    case Pick(tid, _) => s.check == NoCheck && tid !in s.inFlight
    case Finish(tid) => tid in s.inFlight
    case RequestStop => true
    case CheckEnter => s.check == NoCheck
    case CheckQueue => s.check == Entered
    case CheckCount => s.check == QueueEmpty
  }

  function ScheduleStep(s: State, work: Work, thread: Tid): State {
    if work == NoWork then s
    else s.(queue := s.queue + [Task(work, thread, s.issued)], issued := s.issued + 1)
  }

  function PickStep(s: State, tid: Tid, running: set<nat>): State {
    var pos := FirstRunnable(s.queue, tid, running);
    if pos == |s.queue| then s
    else s.(queue := Without(s.queue, pos), inFlight := s.inFlight[tid := s.queue[pos]], active := s.active + 1)
  }

  function FinishStep(s: State, tid: Tid): State
    requires tid in s.inFlight
  {
    s.(inFlight := s.inFlight - {tid}, finished := s.finished + {s.inFlight[tid].ticket}, active := s.active - 1)
  }

  function DoStep(s: State, step: Step): State {
    if !Enabled(s, step) then s
    else
      match step
      case Schedule(_, work, thread) => ScheduleStep(s, work, thread)
      case Pick(tid, running) => PickStep(s, tid, running)
      case Finish(tid) => FinishStep(s, tid)
      case RequestStop => s.(stop := true)
      case CheckEnter => s.(check := Entered)
      case CheckQueue => s.(check := if s.stop && s.queue == [] then QueueEmpty else NoCheck)
      case CheckCount => s.(check := NoCheck)
  }

  datatype Answer = None | Some(stopping: bool)

  /** What `stopping()` returns, at the step where it does. */
  function AnswerOf(s: State, step: Step): Answer {
    if !Enabled(s, step) then None
    else
      match step
      case CheckQueue => if s.stop && s.queue == [] then None else Some(false)
      case CheckCount => Some(s.active == 0)
      case _ => None
  }

  function Exec(s: State, schedule: seq<Step>): State {
    Fold(DoStep, s, schedule)
  }

  // ---------------------------------------------------------------- every task is in one place

  predicate Queued(s: State, t: nat) { exists i :: 0 <= i < |s.queue| && s.queue[i].ticket == t }

  predicate InFlight(s: State, t: nat) { exists w :: w in s.inFlight && s.inFlight[w].ticket == t }

  predicate Finished(s: State, t: nat) { t in s.finished }

  predicate ExactlyOne(a: bool, b: bool, c: bool) { (a || b || c) && !(a && b) && !(a && c) && !(b && c) }

  predicate DistinctTickets(queue: seq<Task>) {
    forall i, j | 0 <= i < j < |queue| :: queue[i].ticket != queue[j].ticket
  }

  predicate DistinctInFlight(m: map<Tid, Task>) {
    forall v, w | v in m && w in m && v != w :: m[v].ticket != m[w].ticket
  }

  ghost predicate Placed(s: State) {
    && DistinctTickets(s.queue) && DistinctInFlight(s.inFlight)
    && forall t: nat :: if t < s.issued then ExactlyOne(Queued(s, t), InFlight(s, t), Finished(s, t))
                        else !Queued(s, t) && !InFlight(s, t) && !Finished(s, t)
  }

  ghost predicate Inv(s: State) {
    && Placed(s)
    && s.active == |s.inFlight|
    && (s.check == QueueEmpty ==> s.stop && s.queue == [])
  }

  lemma ScheduleKeepsInv(s: State, work: Work, thread: Tid)
    requires Inv(s) && s.check == NoCheck
    ensures Inv(ScheduleStep(s, work, thread))
  {
    var t := ScheduleStep(s, work, thread);
    if work != NoWork {
      assert !Queued(s, s.issued);
      assert t.queue[|s.queue|].ticket == s.issued;
      forall x: nat
        ensures Queued(t, x) <==> Queued(s, x) || x == s.issued
        ensures InFlight(t, x) <==> InFlight(s, x)
      {
        if Queued(s, x) {
          var i :| 0 <= i < |s.queue| && s.queue[i].ticket == x;
          assert t.queue[i].ticket == x;
        }
      }
    }
  }

  lemma PickMoves(s: State, tid: Tid, running: set<nat>, x: nat)
    requires Inv(s) && tid !in s.inFlight && FirstRunnable(s.queue, tid, running) < |s.queue|
    ensures var t, picked := PickStep(s, tid, running), s.queue[FirstRunnable(s.queue, tid, running)].ticket;
            && (Queued(t, x) <==> Queued(s, x) && x != picked)
            && (InFlight(t, x) <==> InFlight(s, x) || x == picked)
  {
    var pos := FirstRunnable(s.queue, tid, running);
    var t, picked := PickStep(s, tid, running), s.queue[pos];
    assert forall i | 0 <= i < |t.queue| :: t.queue[i] == s.queue[if i < pos then i else i + 1];
    if Queued(s, x) && x != picked.ticket {
      var i :| 0 <= i < |s.queue| && s.queue[i].ticket == x;
      assert t.queue[if i < pos then i else i - 1].ticket == x;
    }
    if InFlight(s, x) {
      var w :| w in s.inFlight && s.inFlight[w].ticket == x;
      assert w in t.inFlight && t.inFlight[w].ticket == x;
    }
    assert tid in t.inFlight && t.inFlight[tid] == picked;
  }

  lemma PickKeepsInv(s: State, tid: Tid, running: set<nat>)
    requires Inv(s) && s.check == NoCheck && tid !in s.inFlight
    ensures Inv(PickStep(s, tid, running))
  {
    var pos := FirstRunnable(s.queue, tid, running);
    if pos < |s.queue| {
      var t, picked := PickStep(s, tid, running), s.queue[pos].ticket;
      forall x: nat
        ensures (Queued(t, x) <==> Queued(s, x) && x != picked) && (InFlight(t, x) <==> InFlight(s, x) || x == picked)
      {
        PickMoves(s, tid, running, x);
      }
      assert Queued(s, picked) && !InFlight(s, picked);
      WithoutKeepsDistinct(s.queue, pos);
    }
  }

  lemma WithoutKeepsDistinct(queue: seq<Task>, pos: nat)
    requires DistinctTickets(queue) && pos < |queue|
    ensures DistinctTickets(Without(queue, pos))
  {
    var rest := Without(queue, pos);
    assert forall i | 0 <= i < |rest| :: rest[i] == queue[if i < pos then i else i + 1];
  }

  lemma FinishKeepsInv(s: State, tid: Tid)
    requires Inv(s) && tid in s.inFlight
    ensures Inv(FinishStep(s, tid))
  {
    var t, done := FinishStep(s, tid), s.inFlight[tid].ticket;
    assert t.inFlight.Keys == s.inFlight.Keys - {tid};
    assert |t.inFlight| == |t.inFlight.Keys| && |s.inFlight| == |s.inFlight.Keys|;
    assert InFlight(s, done);
    forall x: nat
      ensures (Queued(t, x) <==> Queued(s, x)) && (InFlight(t, x) <==> InFlight(s, x) && x != done)
    {
      if InFlight(s, x) && x != done {
        var w :| w in s.inFlight && s.inFlight[w].ticket == x;
        assert w in t.inFlight && t.inFlight[w].ticket == x;
      }
    }
  }

  lemma FlagsKeepInv(s: State, stop: bool, check: Check)
    requires Inv(s) && (check == QueueEmpty ==> stop && s.queue == [])
    ensures Inv(s.(stop := stop, check := check))
  {
    var t := s.(stop := stop, check := check);
    forall x: nat
      ensures (Queued(t, x) <==> Queued(s, x)) && (InFlight(t, x) <==> InFlight(s, x))
    {
    }
  }

  lemma StepKeepsInv(s: State, step: Step)
    requires Inv(s)
    ensures Inv(DoStep(s, step))
  {
    if Enabled(s, step) {
      match step
      case Schedule(_, work, thread) => ScheduleKeepsInv(s, work, thread);
      case Pick(tid, running) => PickKeepsInv(s, tid, running);
      case Finish(tid) => FinishKeepsInv(s, tid);
      case RequestStop => FlagsKeepInv(s, true, s.check);
      case CheckEnter => FlagsKeepInv(s, s.stop, Entered);
      case CheckQueue => FlagsKeepInv(s, s.stop, DoStep(s, step).check);
      case CheckCount => FlagsKeepInv(s, s.stop, NoCheck);
    }
  }

  /** In every run each scheduled task is queued, in flight or finished, exactly one of the three,
      and the count is the number of workers between pick and decrement. */
  lemma {:induction false} RunKeepsInv(s: State, schedule: seq<Step>)
    requires Inv(s)
    ensures Inv(Exec(s, schedule))
  {
    if schedule != [] {
      var n := |schedule| - 1;
      RunKeepsInv(s, schedule[..n]);
      StepKeepsInv(Exec(s, schedule[..n]), schedule[n]);
    }
  }

  lemma InitInv()
    ensures Inv(Init())
  {
  }

  // ---------------------------------------------------------------- first in, first out

  /** The task a step schedules, if it gets the lock and the work is not empty; `n` have been
      scheduled before. */
  function Scheduled(s: State, step: Step, n: nat): seq<Task> {
    if step.Schedule? && Enabled(s, step) && step.work != NoWork then [Task(step.work, step.thread, n)] else []
  }

  /** All tasks a schedule brings in, in the order in which they were scheduled. */
  function Issued(schedule: seq<Step>): seq<Task> {
    if schedule == [] then []
    else
      var front, last := schedule[..|schedule| - 1], schedule[|schedule| - 1];
      Issued(front) + Scheduled(Exec(Init(), front), last, |Issued(front)|)
  }

  predicate IsIssued(task: Task, issued: seq<Task>) { task.ticket < |issued| && issued[task.ticket] == task }

  predicate InOrder(queue: seq<Task>) {
    forall i, j | 0 <= i < j < |queue| :: queue[i].ticket < queue[j].ticket
  }

  /** Tasks are kept as they were scheduled, and the queue keeps them in that order. */
  predicate Faithful(s: State, issued: seq<Task>) {
    && s.issued == |issued| && InOrder(s.queue)
    && (forall i | 0 <= i < |s.queue| :: IsIssued(s.queue[i], issued))
    && forall tid | tid in s.inFlight :: IsIssued(s.inFlight[tid], issued)
  }

  lemma PickKeepsFaithful(s: State, tid: Tid, running: set<nat>, issued: seq<Task>)
    requires Faithful(s, issued)
    ensures Faithful(PickStep(s, tid, running), issued)
  {
    var pos := FirstRunnable(s.queue, tid, running);
    if pos < |s.queue| {
      var t := PickStep(s, tid, running);
      assert forall i | 0 <= i < |t.queue| :: t.queue[i] == s.queue[if i < pos then i else i + 1];
    }
  }

  lemma StepKeepsFaithful(s: State, step: Step, issued: seq<Task>)
    requires Faithful(s, issued)
    ensures Faithful(DoStep(s, step), issued + Scheduled(s, step, |issued|))
  {
    assert issued + [] == issued;
    if step.Pick? && Enabled(s, step) {
      PickKeepsFaithful(s, step.tid, step.running, issued);
    } else if step.Schedule? && Enabled(s, step) && step.work != NoWork {
      var task := Task(step.work, step.thread, |issued|);
      forall i | 0 <= i < |s.queue|
        ensures IsIssued(s.queue[i], issued + [task])
      {
        assert IsIssued(s.queue[i], issued);
      }
      assert IsIssued(task, issued + [task]);
    }
  }

  lemma {:induction false} RunKeepsFaithful(schedule: seq<Step>)
    ensures Faithful(Exec(Init(), schedule), Issued(schedule))
  {
    if schedule != [] {
      var n := |schedule| - 1;
      RunKeepsFaithful(schedule[..n]);
      StepKeepsFaithful(Exec(Init(), schedule[..n]), schedule[n], Issued(schedule[..n]));
    }
  }

  /** In any run the task a worker takes is, unchanged, the one scheduled first among all that are
      queued and that it need not pass over. */
  lemma OldestFirst(schedule: seq<Step>, tid: Tid, running: set<nat>)
    ensures var s, issued := Exec(Init(), schedule), Issued(schedule);
            var t := PickStep(s, tid, running);
            t != s ==>
              && tid in t.inFlight && IsIssued(t.inFlight[tid], issued)
              && !PassedOver(t.inFlight[tid], tid, running)
              && forall i | 0 <= i < |s.queue| && !PassedOver(s.queue[i], tid, running) ::
                   t.inFlight[tid].ticket <= s.queue[i].ticket
  {
    var s := Exec(Init(), schedule);
    RunKeepsFaithful(schedule);
    if FirstRunnable(s.queue, tid, running) < |s.queue| {
      ScanTakesFirstRunnable(s.queue, tid, running);
    }
  }

  // ---------------------------------------------------------------- stop detection

  /** The scheduler is told to stop if and only if somebody has asked for it. */
  lemma {:induction false} ToldToStopIff(schedule: seq<Step>)
    ensures Exec(Init(), schedule).stop <==> RequestStop in schedule
  {
    if schedule != [] {
      var n := |schedule| - 1;
      ToldToStopIff(schedule[..n]);
      assert schedule == schedule[..n] + [schedule[n]];
    }
  }

  /** The answer of a `stopping()` nobody gets between: true exactly if a stop was requested and
      nothing is queued or in flight. */
  lemma StoppingIff(schedule: seq<Step>)
    ensures var s := Exec(Init(), schedule);
            var t := DoStep(s, CheckEnter);
            s.check == NoCheck ==>
              (if AnswerOf(t, CheckQueue) == None then AnswerOf(DoStep(t, CheckQueue), CheckCount)
               else AnswerOf(t, CheckQueue))
              == Some(RequestStop in schedule && s.queue == [] && s.inFlight == map[])
  {
    var s := Exec(Init(), schedule);
    ToldToStopIff(schedule);
    InitInv();
    RunKeepsInv(Init(), schedule);
    assert s.inFlight == map[] <==> |s.inFlight| == 0;
  }

  /** Told to stop, with nothing queued and nothing in flight. */
  predicate Quiet(s: State) { s.stop && s.queue == [] && s.inFlight == map[] }

  /** When `stopping()` returns true, at that very moment nothing is queued or in flight, although
      it read the queue and the count at different times; so every task scheduled is finished. */
  lemma StoppingIsSound(schedule: seq<Step>, step: Step)
    requires AnswerOf(Exec(Init(), schedule), step) == Some(true)
    ensures var s := Exec(Init(), schedule);
            Quiet(s) && forall t: nat | t < s.issued :: t in s.finished
  {
    var s := Exec(Init(), schedule);
    InitInv();
    RunKeepsInv(Init(), schedule);
    assert |s.inFlight| == 0;
    forall t: nat | t < s.issued
      ensures t in s.finished
    {
      assert ExactlyOne(Queued(s, t), InFlight(s, t), Finished(s, t));
    }
  }

  /** Whether the step brings in work from outside the scheduler's own tasks. */
  predicate FromOutside(step: Step) { step.Schedule? && step.source.Outside? && step.work != NoWork }

  /** One step leaves the quiet state exactly if it is work from outside that gets the lock. */
  lemma QuietStepIff(s: State, step: Step)
    requires Quiet(s)
    ensures Quiet(DoStep(s, step)) <==> !(FromOutside(step) && s.check == NoCheck)
  {
  }

  /** Once quiet, quiet for ever, as long as only in-flight tasks schedule more; no task is ever
      picked again, and every later `stopping()` that completes returns true. */
  lemma {:induction false} QuietIsStable(s: State, schedule: seq<Step>, step: Step)
    requires Inv(s) && Quiet(s)
    requires forall i | 0 <= i < |schedule| :: !FromOutside(schedule[i])
    ensures var t := Exec(s, schedule);
            Quiet(t) && t.issued == s.issued && t.finished == s.finished && AnswerOf(t, step) != Some(false)
  {
    RunKeepsInv(s, schedule);
    if schedule != [] {
      var n := |schedule| - 1;
      QuietIsStable(s, schedule[..n], step);
      QuietStepIff(Exec(s, schedule[..n]), schedule[n]);
    }
  }
}
