/**
 The scheduler object.  Each critical section and each unlocked update of the counter is one
 method; `view` records what the protocol says, and the fields always agree with it.
 */
module Schedulers {
  import opened SchedulerProtocol
  import opened Sequences

  datatype Picked = Nothing | Picked(task: Task)

  class Scheduler {
    var tasks: seq<Task>
    var activeThreadCount: int
    var stopFlag: bool
    /** Numbers the tasks; the source has no such counter. */
    var issued: nat

    ghost var view: State

    ghost predicate Valid()
      reads this
    {
      && tasks == view.queue && activeThreadCount == view.active
      && stopFlag == view.stop && issued == view.issued
      && forall i | 0 <= i < |tasks| :: tasks[i].work != NoWork
    }

    constructor ()
      ensures Valid() && view == Init()
    {
      tasks, activeThreadCount, stopFlag, issued := [], 0, false, 0;
      view := Init();
    }

    /** `schedule`: append the task unless it is empty; the caller is told to wake a thread when
        the queue was empty before. */
    method Enqueue(work: Work, thread: Tid, ghost source: Source) returns (needTickle: bool)
      requires Valid() && Enabled(view, Schedule(source, work, thread))
      modifies this`tasks, this`issued, this`view
      ensures Valid() && view == DoStep(old(view), Schedule(source, work, thread))
      ensures needTickle <==> old(tasks) == []
      ensures work == NoWork ==> tasks == old(tasks)
      ensures work != NoWork ==>
                && |tasks| == |old(tasks)| + 1 && old(tasks) <= tasks
                && tasks[|old(tasks)|].work == work && tasks[|old(tasks)|].thread == thread
    {
      needTickle := tasks == [];
      if work != NoWork {
        tasks := tasks + [Task(work, thread, issued)];
        issued := issued + 1;
      }
      view := DoStep(view, Schedule(source, work, thread));
    }

    /** The queue scan at the head of the worker loop; `running` are the tickets whose fiber shows
        as RUNNING when the scan looks at it. */
    method PickTask(tid: Tid, running: set<nat>) returns (picked: Picked, tickleMe: bool)
      requires Valid()
      modifies this`tasks, this`activeThreadCount, this`view
      ensures Valid() && view == PickStep(old(view), tid, running)
      ensures var pos := FirstRunnable(old(tasks), tid, running);
              picked == if pos < |old(tasks)| then Picked(old(tasks)[pos]) else Nothing
      ensures tickleMe <==> Tickles(old(tasks), tid, running)
    {
      picked, tickleMe := Nothing, false;
      var it := 0;
      while it < |tasks|
        invariant it <= |tasks| && tasks == old(tasks) && picked == Nothing
        invariant Valid() && view == old(view)
        invariant forall i | 0 <= i < it :: !Runnable(tasks[i], tid, running)
        invariant tickleMe <==> exists i :: 0 <= i < it && PinnedElsewhere(tasks[i], tid)
      {
        if tasks[it].thread != ANY_THREAD && tasks[it].thread != tid {
          assert PinnedElsewhere(tasks[it], tid);
          it := it + 1;
          tickleMe := true;
          continue;
        }
        assert tasks[it].work != NoWork;
        if tasks[it].work.FiberWork? && tasks[it].ticket in running {
          it := it + 1;
          continue;
        }
        picked := Picked(tasks[it]);
        RemoveAt(it, tid, running);
        break;
      }
      tickleMe := tickleMe || it != |tasks|;
    }

    /** Takes the task out of the queue and counts this thread as active. */
    method RemoveAt(it: nat, ghost tid: Tid, ghost running: set<nat>)
      requires Valid() && it < |tasks| && it == FirstRunnable(tasks, tid, running)
      modifies this`tasks, this`activeThreadCount, this`view
      ensures Valid() && view == PickStep(old(view), tid, running)
      ensures |tasks| == |old(tasks)| - 1
    {
      tasks := tasks[..it] + tasks[it + 1..];
      activeThreadCount := activeThreadCount + 1;
      view := PickStep(view, tid, running);
    }

    /** A worker is done with its task: the fiber's `resume` has returned, or the callback's fiber
        has been built; the counter is lowered without the lock. */
    method FinishTask(ghost tid: Tid)
      requires Valid() && Enabled(view, Finish(tid))
      modifies this`activeThreadCount, this`view
      ensures Valid() && view == DoStep(old(view), Finish(tid))
    {
      activeThreadCount := activeThreadCount - 1;
      view := DoStep(view, Finish(tid));
    }

    method Stop()
      requires Valid()
      modifies this`stopFlag, this`view
      ensures Valid() && view == DoStep(old(view), RequestStop)
    {
      stopFlag := true;
      view := DoStep(view, RequestStop);
    }

    /** `stopping()` in its three parts: take the lock, read flag and queue, read the count. */
    method StoppingEnter()
      requires Valid() && Enabled(view, CheckEnter)
      modifies this`view
      ensures Valid() && view == DoStep(old(view), CheckEnter)
    {
      view := DoStep(view, CheckEnter);
    }

    method StoppingQueue() returns (answer: Answer)
      requires Valid() && Enabled(view, CheckQueue)
      modifies this`view
      ensures Valid() && view == DoStep(old(view), CheckQueue)
      ensures answer == AnswerOf(old(view), CheckQueue)
    {
      answer := if stopFlag && tasks == [] then None else Some(false);
      view := DoStep(view, CheckQueue);
    }

    method StoppingCount() returns (answer: Answer)
      requires Valid() && Enabled(view, CheckCount)
      modifies this`view
      ensures Valid() && view == DoStep(old(view), CheckCount)
      ensures answer == AnswerOf(old(view), CheckCount)
    {
      answer := Some(activeThreadCount == 0);
      view := DoStep(view, CheckCount);
    }

    /** One step of whichever thread moves next. */
    method Turn(step: Step)
      requires Valid() && Enabled(view, step)
      modifies this
      ensures Valid() && view == DoStep(old(view), step)
    {
      match step
      case Schedule(source, work, thread) => var _ := Enqueue(work, thread, source);
      case Pick(tid, running) => var _, _ := PickTask(tid, running);
      case Finish(tid) => FinishTask(tid);
      case RequestStop => Stop();
      case CheckEnter => StoppingEnter();
      case CheckQueue => var _ := StoppingQueue();
      case CheckCount => var _ := StoppingCount();
    }

    /** Any interleaving of the threads in which every step is possible when its turn comes. */
    method Run(schedule: seq<Step>)
      requires Valid()
      requires forall i | 0 <= i < |schedule| :: Enabled(Exec(view, schedule[..i]), schedule[i])
      modifies this
      ensures Valid() && view == Exec(old(view), schedule)
    {
      for i := 0 to |schedule|
        invariant Valid() && view == Exec(old(view), schedule[..i])
      {
        assert schedule[..i + 1] == schedule[..i] + [schedule[i]];
        FoldSnoc(DoStep, old(view), schedule[..i], schedule[i]);
        Turn(schedule[i]);
      }
      assert schedule[..|schedule|] == schedule;
    }
  }
}
