/** The globals of src/sched.c and the wait queue, updated in place, proved against module Sched. */
module Scheduler {
  import opened Seqs
  import opened Sched
  import opened SchedTheorems

  class TaskTable {
    var task: array<Option<Task>>
    var current: nat
    var nrTasks: int
    var waitQueue: seq<nat>

    ghost function View(): Sys
      reads this, task
    {
      Sys(task[..], current, nrTasks, waitQueue)
    }

    /** The state of a kernel that has been brought up: see SchedTheorems.StepKeeps. */
    ghost predicate Valid()
      reads this, task
    {
      SInv(View())
    }

    constructor ()
      ensures Valid() && View() == Boot() && fresh(task)
      ensures task.Length == 64 && task[0] == Some(Task(Running, 0, 1, 0, 0, 0))
      ensures forall i :: 1 <= i < 64 ==> task[i].None?
      ensures current == 0 && nrTasks == 1 && waitQueue == []
    {
      task := new Option<Task>[NR_TASKS](i => if i == 0 then Some(Task(Running, 0, 1, 0, 0, 0)) else None);
      current, nrTasks, waitQueue := 0, 1, [];
      new;
      assert task[..] == Boot().task;
      BootOk();
    }

    method AddToPreemptCount(d: int)
      requires Sane(View())
      modifies task
      ensures View() == SetCurrent(old(View()),
              Current(old(View())).(preemptCount := Current(old(View())).preemptCount + d))
    {
      var t := task[current].value;
      task[current] := Some(t.(preemptCount := t.preemptCount + d));
    }

    /** src/sched.c:30-38 */
    method SelectTask() returns (c: int, next: nat)
      requires task.Length == NR_TASKS
      ensures (c, next) == Select(task[..])
      ensures BestBelow(task[..], NR_TASKS, c, next)
    {
      c, next := -1, 0;
      for i := 0 to NR_TASKS
        invariant SelectFrom(task[..], i, c, next) == Select(task[..])
      {
        var p := task[i];
        if p.Some? && p.value.state == Running && p.value.counter > c {
          c, next := p.value.counter, i;
        }
      }
      SelectBest(task[..]);
    }

    /** src/sched.c:42-47 */
    method RefillCounters()
      requires task.Length == NR_TASKS
      modifies task
      ensures task[..] == Refill(old(task[..]))
      ensures forall i :: 0 <= i < NR_TASKS && old(task[i]).Some? ==>
                task[i].Some? && task[i].value.counter == old(task[i]).value.counter / 2 + old(task[i]).value.priority
    {
      for i := 0 to NR_TASKS
        invariant forall j :: 0 <= j < i ==> task[j] == RefillOne(old(task[j]))
        invariant forall j :: i <= j < NR_TASKS ==> task[j] == old(task[j])
      {
        var p := task[i];
        if p.Some? {
          task[i] := Some(p.value.(counter := p.value.counter / 2 + p.value.priority));
        }
      }
    }

    /** The endless loop of _schedule (src/sched.c:29-48): it ends within two passes. */
    method PickTask() returns (next: nat)
      requires task.Length == NR_TASKS && Priorities(task[..])
      modifies task
      ensures (task[..], next) == Pick(old(task[..]))
    {
      ghost var t := task[..];
      ghost var passes := 0;
      var c: int;
      c, next := SelectTask();
      while c == 0
        invariant passes <= 1 && (c, next) == Select(task[..])
        invariant task[..] == if passes == 0 then t else Refill(t)
        invariant passes == 1 ==> Select(t).0 == 0 && c > 0
        decreases 1 - passes
      {
        TwoPasses(t);
        RefillCounters();
        c, next := SelectTask();
        passes := passes + 1;
      }
    }

    /** _schedule */
    method RescheduleNow()
      requires Leaving(View())
      modifies this`current, task
      ensures View() == Reschedule(old(View())) && Valid()
    {
      ghost var s := View();
      RescheduleKeeps(s);
      PickOnLeaving(s);
      AddToPreemptCount(1);
      LeavingPriorities(s);
      var next := PickTask();
      if next != current {
        current := next;
      }
      AddToPreemptCount(-1);
    }

    method Schedule()
      requires Valid()
      modifies this`current, task
      ensures View() == Yield(old(View())) && Valid()
    {
      YieldKeeps(View());
      task[current] := Some(task[current].value.(counter := 0));
      RescheduleNow();
    }

    method TimerTick()
      requires Valid()
      modifies task
      ensures View() == Tick(old(View())) && Valid()
      ensures task[current].value.counter == old(task[current].value.counter) - 1
    {
      StepKeeps(View(), TickStep);
      task[current] := Some(task[current].value.(counter := task[current].value.counter - 1));
    }

    method TaskPreemption()
      requires Valid()
      modifies this`current, task
      ensures View() == Preempt(old(View())) && Valid()
    {
      if task[current].value.counter > 0 || task[current].value.preemptCount > 0 {
        return;
      }
      Schedule();
    }

    /** assignPID and the slot it fills (src/fork.c:43-62 and 88-98), given a free slot. */
    method CopyProcess() returns (pid: nat)
      requires Valid() && FreeSlotFrom(task[..], 0).Some?
      modifies this`nrTasks, task
      ensures View() == Fork(old(View())) && Valid()
      ensures FreeSlotFrom(old(task[..]), 0) == Some(pid)
      ensures pid < NR_TASKS && nrTasks == old(nrTasks) + 1
      ensures var p := old(task[current]).value.priority; task[pid] == Some(Task(Running, p, p, 1, pid, 0))
    {
      ghost var s := View();
      StepKeeps(s, ForkStep);
      FreeSlotIs(s.task, 0);
      pid := 0;
      while task[pid].Some?
        invariant pid < NR_TASKS && FreeSlotFrom(s.task, pid) == FreeSlotFrom(s.task, 0)
        decreases NR_TASKS - pid
      {
        pid := pid + 1;
      }
      nrTasks := nrTasks + 1;
      var p := task[current].value.priority;
      task[pid] := Some(Task(Running, p, p, 1, pid, 0));
    }

    method Wait()
      requires Valid() && current != 0
      modifies this`current, this`waitQueue, task
      ensures View() == Sched.Wait(old(View())) && Valid()
    {
      ghost var s := View();
      WaitLeaves(s);
      WaitIs(s);
      task[current] := Some(task[current].value.(state := Waiting));
      waitQueue := waitQueue + [current];
      task[current] := Some(task[current].value.(counter := 0));
      assert View() == WaitLeaving(s);
      RescheduleNow();
    }

    /** wake_up: every entry is unlinked while the loop stands on it. */
    method WakeUp()
      requires Valid()
      modifies this`waitQueue, task
      ensures View() == Wake(old(View())) && Valid() && waitQueue == []
    {
      ghost var s := View();
      StepKeeps(s, WakeStep);
      forall i | 0 <= i < |waitQueue| ensures waitQueue[i] < NR_TASKS && task[waitQueue[i]].Some? {
        assert waitQueue[i] in s.waitQueue;
      }
      while waitQueue != []
        invariant WakeAll(task[..], waitQueue) == WakeAll(s.task, s.waitQueue)
        invariant forall i :: 0 <= i < |waitQueue| ==> waitQueue[i] < NR_TASKS && task[waitQueue[i]].Some?
        invariant current == s.current && nrTasks == s.nrTasks
        decreases |waitQueue|
      {
        var pos := waitQueue[0];
        task[pos] := Some(task[pos].value.(state := Running));
        waitQueue := waitQueue[1..];
      }
    }

    method ExitProcess()
      requires Valid() && current != 0
      modifies this`current, task
      ensures View() == Exit(old(View())) && Valid()
    {
      ghost var s := View();
      ExitLeaves(s);
      ExitIs(s);
      AddToPreemptCount(1);
      task[current] := Some(task[current].value.(state := Zombie));
      AddToPreemptCount(-1);
      task[current] := Some(task[current].value.(counter := 0));
      assert View().task == ExitLeaving(s).task;
      RescheduleNow();
    }

    /** sys_kill of an occupied slot; a task that waits leaves its queue entry behind. */
    method SysKill(pid: nat)
      requires Valid() && pid < NR_TASKS && task[pid].Some?
      modifies this`nrTasks, task
      ensures View() == Kill(old(View()), pid)
      ensures pid != 0 && pid != current ==> task[pid].None? && nrTasks == old(nrTasks) - 1
      ensures old(task[pid].value.state) != Waiting ==> Valid()
    {
      if task[pid].value.state != Waiting { StepKeeps(View(), KillStep(pid)); }
      assert TaskOk(task[current].value, current, current);
      if task[current].value.pid == pid || pid == 0 {
        return;
      }
      task[pid] := None;
      nrTasks := nrTasks - 1;
    }
  }

  lemma LeavingPriorities(s: Sys)
    requires Leaving(s)
    ensures Priorities(PreemptDisable(s).task)
  {
    forall i | 0 <= i < |s.task| && s.task[i].Some? ensures s.task[i].value.priority >= 1 {
      assert TaskOk(s.task[i].value, i, s.current);
    }
  }
}
