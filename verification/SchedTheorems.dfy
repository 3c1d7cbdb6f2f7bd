/** Invariants and guarantees of the scheduler over every run. */
module SchedTheorems {
  import opened Seqs
  import opened Sched

  // ---------------------------------------------------------------- which task is chosen

  /** (c, next) is the best among the runnable slots below n: the largest counter above -1 with the
      lowest slot that has it, or (-1, 0). */
  ghost predicate BestBelow(task: seq<Option<Task>>, n: nat, c: int, next: nat)
  {
    && (forall i: nat :: i < n && Runnable(task, i) ==> task[i].value.counter <= c)
    && c >= -1
    && (c == -1 ==> next == 0)
    && (c >= 0 ==> next < n && Runnable(task, next) && task[next].value.counter == c)
    && (c >= 0 ==> forall i: nat :: i < next && Runnable(task, i) ==> task[i].value.counter < c)
  }

  lemma {:induction false} SelectFromBest(task: seq<Option<Task>>, i: nat, c: int, next: nat)
    requires i <= |task| && BestBelow(task, i, c, next)
    ensures BestBelow(task, |task|, SelectFrom(task, i, c, next).0, SelectFrom(task, i, c, next).1)
    decreases |task| - i
  {
    if i < |task| {
      if Runnable(task, i) && task[i].value.counter > c {
        SelectFromBest(task, i + 1, task[i].value.counter, i);
      } else {
        SelectFromBest(task, i + 1, c, next);
      }
    }
  }

  /** One pass finds the lowest-indexed runnable task of maximal counter. */
  lemma SelectBest(task: seq<Option<Task>>)
    ensures BestBelow(task, |task|, Select(task).0, Select(task).1)
  {
    SelectFromBest(task, 0, -1, 0);
  }

  /** Every occupied slot has a priority of at least 1. */
  ghost predicate Priorities(task: seq<Option<Task>>)
  {
    forall i :: 0 <= i < |task| && task[i].Some? ==> task[i].value.priority >= 1
  }

  /** The loop of _schedule never needs a third pass: after a refill some counter is positive. */
  lemma TwoPasses(task: seq<Option<Task>>)
    requires Priorities(task) && Select(task).0 == 0
    ensures Select(Refill(task)).0 > 0
  {
    SelectBest(task);
    SelectBest(Refill(task));
    var i := Select(task).1;
    assert Runnable(Refill(task), i);
  }

  /** The task _schedule switches to is runnable if and only if some runnable task has a counter that
      is not negative, or slot 0 is runnable. */
  lemma PickRunnableIff(task: seq<Option<Task>>)
    requires Priorities(task)
    ensures Runnable(Pick(task).0, Pick(task).1) <==>
            Runnable(task, 0) || exists i: nat :: Runnable(task, i) && task[i].value.counter >= 0
  {
    SelectBest(task);
    if Select(task).0 == 0 {
      TwoPasses(task);
      SelectBest(Refill(task));
      assert Runnable(task, Select(task).1);
    }
  }

  // ---------------------------------------------------------------- the invariant

  function Occupied(task: seq<Option<Task>>): nat
  {
    if task == [] then 0 else (if task[0].Some? then 1 else 0) + Occupied(task[1..])
  }

  /** A slot's task: its pid, its counter bounds, its preemption count. */
  predicate TaskOk(t: Task, i: nat, current: nat)
  {
    && t.pid == i
    && t.priority >= 1 && t.counter <= 2 * t.priority - 1
    && (i != current ==> t.counter >= 0)
    && t.preemptCount == t.open + if i == current then 0 else 1
  }

  ghost predicate TableOk(s: Sys)
  {
    Sane(s) && forall i :: 0 <= i < |s.task| && s.task[i].Some? ==> TaskOk(s.task[i].value, i, s.current)
  }

  /** A task waits if and only if it has an entry in the wait queue, and then exactly one. */
  ghost predicate QueueOk(s: Sys)
  {
    && NoDup(s.waitQueue)
    && forall i: nat :: i in s.waitQueue <==> i < |s.task| && s.task[i].Some? && s.task[i].value.state == Waiting
  }

  ghost predicate SInv(s: Sys)
  {
    && TableOk(s)
    && QueueOk(s)
    && Runnable(s.task, s.current) && Runnable(s.task, 0)
    && s.nrTasks == Occupied(s.task)
  }

  lemma {:induction false} OccupiedUpdate(task: seq<Option<Task>>, i: nat, t: Option<Task>)
    requires i < |task|
    ensures Occupied(task[i := t]) == Occupied(task) - (if task[i].Some? then 1 else 0) + (if t.Some? then 1 else 0)
  {
    if i > 0 {
      assert task[i := t][1..] == task[1..][i - 1 := t];
      OccupiedUpdate(task[1..], i - 1, t);
    } else {
      assert task[i := t][1..] == task[1..];
    }
  }

  lemma {:induction false} OccupiedSame(task: seq<Option<Task>>, task': seq<Option<Task>>)
    requires |task| == |task'| && forall i :: 0 <= i < |task| ==> (task[i].Some? <==> task'[i].Some?)
    ensures Occupied(task) == Occupied(task')
  {
    if task != [] { OccupiedSame(task[1..], task'[1..]); }
  }

  /** The state in which _schedule is entered: the current task has used up its time, and has perhaps
      just stopped running. */
  ghost predicate Leaving(s: Sys)
  {
    && TableOk(s) && QueueOk(s) && Runnable(s.task, 0) && s.nrTasks == Occupied(s.task)
    && Current(s).counter == 0
  }

  lemma PickOnLeaving(s: Sys)
    requires Leaving(s)
    ensures var d := PreemptDisable(s);
            var (task, next) := Pick(d.task);
            && |task| == NR_TASKS && Runnable(task, next) && task[next].value.counter > 0
            && (task == d.task || (Select(d.task).0 == 0 && task == Refill(d.task)))
            && BestBelow(task, NR_TASKS, task[next].value.counter, next)
  {
    var d := PreemptDisable(s);
    SelectBest(d.task);
    assert Runnable(d.task, 0) && d.task[0].value.counter >= 0;
    if Select(d.task).0 == 0 {
      TwoPasses(d.task);
      SelectBest(Refill(d.task));
    }
  }

  /** In every reachable state the loop ends after at most two passes and _schedule passes control to
      the lowest-indexed runnable task of maximal counter, which has time left. */
  lemma RescheduleChoice(s: Sys)
    requires Leaving(s)
    ensures var r := Reschedule(s);
            && r.current == Pick(PreemptDisable(s).task).1
            && Runnable(r.task, r.current) && Current(r).counter > 0
            && (forall i: nat :: Runnable(r.task, i) ==> r.task[i].value.counter <= Current(r).counter)
            && (forall i: nat :: i < r.current && Runnable(r.task, i) ==> r.task[i].value.counter < Current(r).counter)
  {
    PickOnLeaving(s);
  }

  lemma RescheduleKeeps(s: Sys)
    requires Leaving(s)
    ensures SInv(Reschedule(s))
  {
    PickOnLeaving(s);
    var d := PreemptDisable(s);
    var (task, next) := Pick(d.task);
    var r := Reschedule(s);
    assert r == PreemptEnable(d.(task := task, current := next));
    forall i | 0 <= i < |r.task| && r.task[i].Some? ensures TaskOk(r.task[i].value, i, r.current) {
      assert TaskOk(s.task[i].value, i, s.current);
    }
    OccupiedSame(s.task, r.task);
    forall i: nat ensures i in r.waitQueue <==> i < |r.task| && r.task[i].Some? && r.task[i].value.state == Waiting {
      assert i in s.waitQueue <==> i < |s.task| && s.task[i].Some? && s.task[i].value.state == Waiting;
    }
  }

  lemma CurrentOnly(s: Sys, t: Task)
    requires SInv(s) && TaskOk(t, s.current, s.current) && t.state == Running
    ensures SInv(SetCurrent(s, t))
  {
    OccupiedUpdate(s.task, s.current, Some(t));
    var r := SetCurrent(s, t);
    forall i: nat ensures i in r.waitQueue <==> i < |r.task| && r.task[i].Some? && r.task[i].value.state == Waiting {
      assert i in s.waitQueue <==> i < |s.task| && s.task[i].Some? && s.task[i].value.state == Waiting;
    }
  }

  lemma YieldKeeps(s: Sys)
    requires SInv(s)
    ensures SInv(Yield(s)) && Leaving(SetCurrent(s, Current(s).(counter := 0)))
  {
    assert TaskOk(Current(s), s.current, s.current);
    CurrentOnly(s, Current(s).(counter := 0));
    RescheduleKeeps(SetCurrent(s, Current(s).(counter := 0)));
  }

  lemma WaitLeaves(s: Sys)
    requires SInv(s) && s.current != 0
    ensures Leaving(SetCurrent(s, Current(s).(state := Waiting, counter := 0)).(waitQueue := s.waitQueue + [s.current]))
  {
    var t := Current(s).(state := Waiting, counter := 0);
    var r := SetCurrent(s, t).(waitQueue := s.waitQueue + [s.current]);
    assert TaskOk(Current(s), s.current, s.current);
    OccupiedUpdate(s.task, s.current, Some(t));
    assert s.current !in s.waitQueue;
    NoDupSnoc(s.waitQueue, s.current);
    forall i: nat ensures i in r.waitQueue <==> i < |r.task| && r.task[i].Some? && r.task[i].value.state == Waiting {
      assert i in s.waitQueue <==> i < |s.task| && s.task[i].Some? && s.task[i].value.state == Waiting;
    }
  }

  lemma ExitLeaves(s: Sys)
    requires SInv(s) && s.current != 0
    ensures Leaving(SetCurrent(s, Current(s).(state := Zombie, counter := 0)))
  {
    var t := Current(s).(state := Zombie, counter := 0);
    var r := SetCurrent(s, t);
    assert TaskOk(Current(s), s.current, s.current);
    OccupiedUpdate(s.task, s.current, Some(t));
    forall i: nat ensures i in r.waitQueue <==> i < |r.task| && r.task[i].Some? && r.task[i].value.state == Waiting {
      assert i in s.waitQueue <==> i < |s.task| && s.task[i].Some? && s.task[i].value.state == Waiting;
    }
  }

  lemma {:induction false} FreeSlotIs(task: seq<Option<Task>>, i: nat)
    requires i <= |task|
    ensures match FreeSlotFrom(task, i)
            case None => forall j :: i <= j < |task| ==> task[j].Some?
            case Some(k) => i <= k < |task| && task[k].None? && forall j :: i <= j < k ==> task[j].Some?
    decreases |task| - i
  {
    if i < |task| && task[i].Some? { FreeSlotIs(task, i + 1); }
  }

  lemma ForkKeeps(s: Sys)
    requires SInv(s)
    ensures SInv(Fork(s))
  {
    FreeSlotIs(s.task, 0);
    var slot := FreeSlotFrom(s.task, 0);
    if slot.Some? {
      var r := Fork(s);
      assert TaskOk(Current(s), s.current, s.current);
      OccupiedUpdate(s.task, slot.value, r.task[slot.value]);
      forall i: nat ensures i in r.waitQueue <==> i < |r.task| && r.task[i].Some? && r.task[i].value.state == Waiting {
        assert i in s.waitQueue <==> i < |s.task| && s.task[i].Some? && s.task[i].value.state == Waiting;
      }
    }
  }

  lemma KillKeeps(s: Sys, pid: nat)
    requires SInv(s) && Legal(s, KillStep(pid))
    ensures SInv(Kill(s, pid))
  {
    assert TaskOk(Current(s), s.current, s.current);
    OccupiedUpdate(s.task, pid, None);
    var r := Kill(s, pid);
    forall i: nat ensures i in r.waitQueue <==> i < |r.task| && r.task[i].Some? && r.task[i].value.state == Waiting {
      assert i in s.waitQueue <==> i < |s.task| && s.task[i].Some? && s.task[i].value.state == Waiting;
    }
  }

  /** wake_up makes exactly the queued tasks runnable. */
  lemma {:induction false} WakeAllIs(task: seq<Option<Task>>, q: seq<nat>, i: nat)
    requires i < |task| && task[i].Some?
    ensures WakeAll(task, q)[i] == Some(if i in q then task[i].value.(state := Running) else task[i].value)
    decreases |q|
  {
    if q != [] {
      assert q == [q[0]] + q[1..];
      if q[0] < |task| && task[q[0]].Some? {
        WakeAllIs(task[q[0] := Some(task[q[0]].value.(state := Running))], q[1..], i);
      } else {
        WakeAllIs(task, q[1..], i);
      }
    }
  }

  lemma WakeKeeps(s: Sys)
    requires SInv(s)
    ensures SInv(Wake(s))
  {
    var r := Wake(s);
    OccupiedSame(s.task, r.task);
    forall i: nat | i < |s.task| && s.task[i].Some?
      ensures TaskOk(r.task[i].value, i, r.current) && r.task[i].value.state != Waiting
      ensures s.task[i].value.state == Running ==> r.task[i].value.state == Running
    {
      WakeAllIs(s.task, s.waitQueue, i);
      assert TaskOk(s.task[i].value, i, s.current);
    }
  }

  /** Every legal step keeps the invariant. */
  lemma StepKeeps(s: Sys, a: Step)
    requires SInv(s) && Legal(s, a)
    ensures SInv(Do(s, a))
  {
    assert TaskOk(Current(s), s.current, s.current);
    match a {
      case TickStep => CurrentOnly(s, Current(s).(counter := Current(s).counter - 1));
      case PreemptStep => YieldKeeps(s);
      case YieldStep => YieldKeeps(s);
      case OpenStep =>
        CurrentOnly(s, Current(s).(preemptCount := Current(s).preemptCount + 1, open := Current(s).open + 1));
        OpenIs(s);
      case CloseStep =>
        CurrentOnly(s, Current(s).(preemptCount := Current(s).preemptCount - 1, open := Current(s).open - 1));
        CloseIs(s);
      case ForkStep => ForkKeeps(s);
      case WaitStep => WaitLeaves(s); WaitIs(s); RescheduleKeeps(WaitLeaving(s));
      case WakeStep => WakeKeeps(s);
      case ExitStep => ExitLeaves(s); ExitIs(s); RescheduleKeeps(ExitLeaving(s));
      case KillStep(pid) => KillKeeps(s, pid);
    }
  }

  lemma OpenIs(s: Sys)
    requires Sane(s)
    ensures Open(s) == SetCurrent(s,
            Current(s).(preemptCount := Current(s).preemptCount + 1, open := Current(s).open + 1))
  {
    assert Open(s).task ==
           SetCurrent(s, Current(s).(preemptCount := Current(s).preemptCount + 1, open := Current(s).open + 1)).task;
  }

  lemma CloseIs(s: Sys)
    requires Sane(s) && Current(s).open > 0
    ensures Close(s) == SetCurrent(s,
            Current(s).(preemptCount := Current(s).preemptCount - 1, open := Current(s).open - 1))
  {
    assert Close(s).task ==
           SetCurrent(s, Current(s).(preemptCount := Current(s).preemptCount - 1, open := Current(s).open - 1)).task;
  }

  function WaitLeaving(s: Sys): Sys
    requires Sane(s)
  {
    SetCurrent(s, Current(s).(state := Waiting, counter := 0)).(waitQueue := s.waitQueue + [s.current])
  }

  lemma WaitIs(s: Sys)
    requires Sane(s)
    ensures Wait(s) == Reschedule(WaitLeaving(s))
  {
    var w := SetCurrent(s, Current(s).(state := Waiting)).(waitQueue := s.waitQueue + [s.current]);
    assert SetCurrent(w, Current(w).(counter := 0)).task == WaitLeaving(s).task;
  }

  function ExitLeaving(s: Sys): Sys
    requires Sane(s)
  {
    SetCurrent(s, Current(s).(state := Zombie, counter := 0))
  }

  lemma ExitIs(s: Sys)
    requires Sane(s)
    ensures Exit(s) == Reschedule(ExitLeaving(s))
  {
    var e := PreemptEnable(SetCurrent(PreemptDisable(s), Current(PreemptDisable(s)).(state := Zombie)));
    assert SetCurrent(e, Current(e).(counter := 0)).task == ExitLeaving(s).task;
  }

  lemma BootOk()
    ensures SInv(Boot())
  {
    var s := Boot();
    assert s.task[0] == Some(Task(Running, 0, 1, 0, 0, 0));
    var empty: seq<Option<Task>> := seq(NR_TASKS, _ => None);
    assert s.task == empty[0 := s.task[0]];
    OccupiedUpdate(empty, 0, s.task[0]);
    NoneOccupied(empty);
  }

  lemma {:induction false} NoneOccupied(task: seq<Option<Task>>)
    requires forall i :: 0 <= i < |task| ==> task[i].None?
    ensures Occupied(task) == 0
  {
    if task != [] { NoneOccupied(task[1..]); }
  }

  /** Every state of every run from start-up satisfies the invariant. */
  lemma {:induction false} RunsKeep(s: Sys, steps: seq<Step>, t: Sys)
    requires SInv(s) && Runs(s, steps, t)
    ensures SInv(t)
    decreases |steps|
  {
    if steps != [] {
      StepKeeps(s, steps[0]);
      RunsKeep(Do(s, steps[0]), steps[1..], t);
    }
  }

  lemma EveryRunSafe(steps: seq<Step>, t: Sys)
    requires Runs(Boot(), steps, t)
    ensures SInv(t)
  {
    BootOk();
    RunsKeep(Boot(), steps, t);
  }
}
