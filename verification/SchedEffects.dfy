/** What each step of the scheduler does to every field of every slot, and what follows for time slices,
    new tasks, refills and killed slots over whole runs. */
module SchedEffects {
  import opened Seqs
  import opened Sched
  import opened SchedTheorems
  import opened SchedFairness

  /** No slot but i has changed, nor has anything beside the table. */
  ghost predicate OnlySlot(s: Sys, r: Sys, i: nat)
  {
    && |r.task| == |s.task| && (forall j :: 0 <= j < |s.task| && j != i ==> r.task[j] == s.task[j])
    && r.current == s.current && r.waitQueue == s.waitQueue
  }

  // ---------------------------------------------------------------- ticks and time slices

  /** timer_tick takes one from the counter of the current task. */
  lemma TickEffect(s: Sys)
    requires Sane(s)
    ensures var r, t := Do(s, TickStep), Current(s);
            && OnlySlot(s, r, s.current) && r.nrTasks == s.nrTasks
            && r.task[s.current] == Some(Task(t.state, t.counter - 1, t.priority, t.preemptCount, t.pid, t.open))
  {
  }

  /** preempt_disable by a caller. */
  lemma OpenEffect(s: Sys)
    requires Sane(s)
    ensures var r, t := Do(s, OpenStep), Current(s);
            && OnlySlot(s, r, s.current) && r.nrTasks == s.nrTasks
            && r.task[s.current] == Some(Task(t.state, t.counter, t.priority, t.preemptCount + 1, t.pid, t.open + 1))
  {
  }

  /** preempt_enable by a caller. */
  lemma CloseEffect(s: Sys)
    requires Sane(s) && Legal(s, CloseStep)
    ensures var r, t := Do(s, CloseStep), Current(s);
            && OnlySlot(s, r, s.current) && r.nrTasks == s.nrTasks
            && r.task[s.current] == Some(Task(t.state, t.counter, t.priority, t.preemptCount - 1, t.pid, t.open - 1))
  {
  }

  function Ticks(steps: seq<Step>): nat
  {
    if steps == [] then 0 else (if steps[0].TickStep? then 1 else 0) + Ticks(steps[1..])
  }

  /** No step of the run calls _schedule. */
  ghost predicate Undisturbed(s: Sys, steps: seq<Step>)
    requires Sane(s)
    decreases |steps|
  {
    steps == [] || (!Reschedules(s, steps[0]) && Undisturbed(Do(s, steps[0]), steps[1..]))
  }

  lemma StepKeepsSlice(s: Sys, a: Step)
    requires SInv(s) && Legal(s, a) && !Reschedules(s, a)
    ensures var r := Do(s, a);
            && r.current == s.current && Current(r).priority == Current(s).priority
            && Current(r).counter == Current(s).counter - if a.TickStep? then 1 else 0
  {
    match a {
      case WakeStep => WakeAllIs(s.task, s.waitQueue, s.current);
      case ForkStep => FreeSlotIs(s.task, 0);
      case _ =>
    }
  }

  lemma {:induction false} CounterFalls(s: Sys, steps: seq<Step>, t: Sys)
    requires SInv(s) && Runs(s, steps, t) && Undisturbed(s, steps)
    ensures SInv(t) && t.current == s.current && Current(t).priority == Current(s).priority
    ensures Current(t).counter == Current(s).counter - Ticks(steps)
    decreases |steps|
  {
    if steps != [] {
      StepKeeps(s, steps[0]);
      StepKeepsSlice(s, steps[0]);
      CounterFalls(Do(s, steps[0]), steps[1..], t);
    }
  }

  /** A time slice: while a task runs undisturbed and is inside no section, the interrupt that finds as many
      ticks gone as the task's counter said at the start calls _schedule, and no earlier one does. */
  lemma TimeSlice(s: Sys, steps: seq<Step>, t: Sys)
    requires SInv(s) && Runs(s, steps, t) && Undisturbed(s, steps)
    ensures Sane(t) && t.current == s.current
    ensures Current(t).open == 0 ==> (Reschedules(t, PreemptStep) <==> Ticks(steps) >= Current(s).counter)
    ensures Current(t).open > 0 ==> !Reschedules(t, PreemptStep)
  {
    CounterFalls(s, steps, t);
    assert TaskOk(Current(t), t.current, t.current);
  }

  /** No slice is longer than 2 * priority - 1 ticks. */
  lemma SliceBound(s: Sys, steps: seq<Step>, t: Sys)
    requires SInv(s) && Runs(s, steps, t) && Undisturbed(s, steps) && Ticks(steps) >= 2 * Current(s).priority - 1
    ensures Sane(t) && (Current(t).open == 0 ==> Reschedules(t, PreemptStep))
  {
    TimeSlice(s, steps, t);
    assert TaskOk(Current(s), s.current, s.current);
  }

  // ---------------------------------------------------------------- reschedules and refills

  /** task_preemption calls _schedule exactly when the counter is used up and no section is open. */
  lemma PreemptEffect(s: Sys)
    requires SInv(s)
    ensures Reschedules(s, PreemptStep) <==> Current(s).counter <= 0 && Current(s).open == 0
    ensures Do(s, PreemptStep) == if Reschedules(s, PreemptStep) then Do(s, YieldStep) else s
  {
    assert TaskOk(Current(s), s.current, s.current);
  }

  function StateAfter(a: Step): RunState
  {
    match a
    case WaitStep => Waiting
    case ExitStep => Zombie
    case _ => Running
  }

  /** A slot other than the one that is left, across a reschedule that refills or does not, and chooses it
      or does not. */
  predicate Across(t: Task, t': Task, refill: bool, chosen: bool)
  {
    && t'.state == t.state && t'.priority == t.priority && t'.pid == t.pid && t'.open == t.open
    && t'.counter == (if refill then t.counter / 2 + t.priority else t.counter)
    && t'.preemptCount == t.preemptCount - if chosen then 1 else 0
  }

  /** The slot that is left. */
  predicate Left(t: Task, t': Task, state: RunState, refill: bool, chosen: bool)
  {
    && t'.state == state && t'.priority == t.priority && t'.pid == t.pid && t'.open == t.open
    && t'.counter == (if refill then t.priority else 0)
    && t'.preemptCount == t.preemptCount + 1 - if chosen then 1 else 0
  }

  lemma OthersAcross(s: Sys, a: Step, i: nat)
    requires SInv(s) && Legal(s, a) && Reschedules(s, a) && i < |s.task| && s.task[i].Some? && i != s.current
    ensures var r := Do(s, a);
            && i < |r.task| && r.task[i].Some?
            && Across(s.task[i].value, r.task[i].value, RefillsNow(s, a), i == r.current)
  {
    StepIsReschedule(s, a);
    PickOnLeaving(LeavingState(s, a));
  }

  lemma CurrentAcross(s: Sys, a: Step)
    requires SInv(s) && Legal(s, a) && Reschedules(s, a)
    ensures var r := Do(s, a);
            && |r.task| == |s.task| && r.nrTasks == s.nrTasks && r.task[s.current].Some?
            && r.waitQueue == s.waitQueue + (if a.WaitStep? then [s.current] else [])
            && Left(Current(s), r.task[s.current].value, StateAfter(a), RefillsNow(s, a), s.current == r.current)
  {
    StepIsReschedule(s, a);
    PickOnLeaving(LeavingState(s, a));
    assert TaskOk(Current(s), s.current, s.current);
  }

  lemma EmptyAcross(s: Sys, a: Step, i: nat)
    requires SInv(s) && Legal(s, a) && Reschedules(s, a) && i < |s.task| && s.task[i].None?
    ensures i < |Do(s, a).task| && Do(s, a).task[i].None?
  {
    StepIsReschedule(s, a);
    PickOnLeaving(LeavingState(s, a));
  }

  /** A reschedule, field by field: a refill reaches every occupied slot, whatever its state. */
  lemma RescheduleEffect(s: Sys, a: Step)
    requires SInv(s) && Legal(s, a) && Reschedules(s, a)
    ensures var r, refill := Do(s, a), RefillsNow(s, a);
            && |r.task| == |s.task| && r.nrTasks == s.nrTasks
            && r.waitQueue == s.waitQueue + (if a.WaitStep? then [s.current] else [])
            && (forall i :: 0 <= i < |s.task| && s.task[i].None? ==> r.task[i].None?)
            && (forall i :: 0 <= i < |s.task| && s.task[i].Some? && i != s.current ==>
                  r.task[i].Some? && Across(s.task[i].value, r.task[i].value, refill, i == r.current))
            && r.task[s.current].Some?
            && Left(Current(s), r.task[s.current].value, StateAfter(a), refill, s.current == r.current)
  {
    CurrentAcross(s, a);
    forall i | 0 <= i < |s.task| && s.task[i].None? ensures Do(s, a).task[i].None? { EmptyAcross(s, a, i); }
    forall i | 0 <= i < |s.task| && s.task[i].Some? && i != s.current
      ensures Do(s, a).task[i].Some?
      ensures Across(s.task[i].value, Do(s, a).task[i].value, RefillsNow(s, a), i == Do(s, a).current)
    {
      OthersAcross(s, a, i);
    }
  }

  /** Counters are refilled exactly when no other runnable task has time left. */
  lemma RefillsIff(s: Sys, a: Step)
    requires SInv(s) && Legal(s, a) && Reschedules(s, a)
    ensures RefillsNow(s, a) <==>
            forall i: nat :: i != s.current && Runnable(s.task, i) ==> s.task[i].value.counter == 0
  {
    var l := LeavingState(s, a);
    StepIsReschedule(s, a);
    var d := PreemptDisable(l);
    SelectBest(d.task);
    assert Runnable(d.task, 0) && TaskOk(l.task[0].value, 0, l.current);
    forall i: nat | i != s.current && Runnable(s.task, i)
      ensures d.task[i] == s.task[i] && Runnable(d.task, i) && s.task[i].value.counter >= 0
    {
      assert TaskOk(s.task[i].value, i, s.current);
    }
  }

  /** Slot w has time left, and waits or is runnable. */
  predicate Stocked(s: Sys, w: nat)
  {
    && w < |s.task| && s.task[w].Some? && w != s.current && s.task[w].value.counter >= 1
    && s.task[w].value.state != Zombie
  }

  lemma RefillStocks(s: Sys, a: Step, w: nat)
    requires SInv(s) && Legal(s, a) && RefillsNow(s, a)
    requires w < NR_TASKS && Do(s, a).task[w].Some? && Do(s, a).task[w].value.state == Waiting
    ensures Stocked(Do(s, a), w)
  {
    StepKeeps(s, a);
    RescheduleEffect(s, a);
    assert s.task[w].Some? && TaskOk(s.task[w].value, w, s.current);
  }

  lemma StepKeepsStock(s: Sys, a: Step, w: nat)
    requires SInv(s) && Legal(s, a) && a != KillStep(w) && !RefillsNow(s, a) && Stocked(s, w)
    requires Reschedules(s, a) ==> Do(s, a).current != w
    ensures Stocked(Do(s, a), w)
    ensures s.task[w].value.state == Running || a.WakeStep? ==> Do(s, a).task[w].value.state == Running
  {
    if Reschedules(s, a) {
      RescheduleEffect(s, a);
    } else {
      match a {
        case WakeStep =>
          WakeAllIs(s.task, s.waitQueue, w);
          assert s.task[w].value.state == Waiting ==> w in s.waitQueue;
        case ForkStep => FreeSlotIs(s.task, 0);
        case _ =>
      }
    }
  }

  lemma {:induction false} StockLasts(s: Sys, steps: seq<Step>, t: Sys, w: nat)
    requires SInv(s) && Runs(s, steps, t) && Stocked(s, w) && KillStep(w) !in steps && w !in Picks(s, steps)
    requires NoRefill(s, steps)
    ensures SInv(t) && Stocked(t, w)
    ensures s.task[w].value.state == Running || WakeStep in steps ==> Runnable(t.task, w)
    decreases |steps|
  {
    if steps != [] {
      var r := Do(s, steps[0]);
      StepKeeps(s, steps[0]);
      assert Reschedules(s, steps[0]) ==> Picks(s, steps) == [r.current] + Picks(r, steps[1..]);
      assert !Reschedules(s, steps[0]) ==> Picks(s, steps) == [] + Picks(r, steps[1..]);
      StepKeepsStock(s, steps[0], w);
      assert steps == [steps[0]] + steps[1..];
      StockLasts(r, steps[1..], t, w);
    }
  }

  ghost predicate NoRefill(s: Sys, steps: seq<Step>)
    requires Sane(s)
    decreases |steps|
  {
    steps == [] || (!RefillsNow(s, steps[0]) && NoRefill(Do(s, steps[0]), steps[1..]))
  }

  /** A task that waits when the counters are refilled and is woken afterwards is chosen before they are
      refilled again, unless it is killed. */
  lemma WokenBeforeRefill(s: Sys, a: Step, steps: seq<Step>, t: Sys, b: Step, w: nat)
    requires SInv(s) && Legal(s, a) && RefillsNow(s, a)
    requires w < NR_TASKS && Do(s, a).task[w].Some? && Do(s, a).task[w].value.state == Waiting
    requires Runs(Do(s, a), steps, t) && NoRefill(Do(s, a), steps) && WakeStep in steps && KillStep(w) !in steps
    requires Sane(t) && Legal(t, b) && RefillsNow(t, b)
    ensures w in Picks(Do(s, a), steps)
  {
    StepKeeps(s, a);
    RefillStocks(s, a, w);
    if w !in Picks(Do(s, a), steps) {
      StockLasts(Do(s, a), steps, t, w);
      RefillsIff(t, b);
    }
  }

  // ---------------------------------------------------------------- wait queue

  /** wake_up makes every waiting task runnable, empties the queue and changes nothing else. */
  lemma WakeEffect(s: Sys)
    requires SInv(s)
    ensures var r := Do(s, WakeStep);
            && |r.task| == |s.task| && r.current == s.current && r.nrTasks == s.nrTasks && r.waitQueue == []
            && (forall i :: 0 <= i < |s.task| && s.task[i].None? ==> r.task[i].None?)
            && (forall i :: 0 <= i < |s.task| && s.task[i].Some? ==>
                  var t := s.task[i].value;
                  r.task[i] == Some(Task(if t.state == Waiting then Running else t.state,
                                         t.counter, t.priority, t.preemptCount, t.pid, t.open)))
  {
    forall i: nat | i < |s.task| && s.task[i].Some?
      ensures Do(s, WakeStep).task[i] ==
              Some(if s.task[i].value.state == Waiting then s.task[i].value.(state := Running) else s.task[i].value)
    {
      WakeAllIs(s.task, s.waitQueue, i);
      assert i in s.waitQueue <==> s.task[i].value.state == Waiting;
    }
  }

  // ---------------------------------------------------------------- new tasks

  /** copy_process puts a runnable task of the parent's priority, with a full counter and switched out, into
      the lowest free slot. */
  lemma ForkEffect(s: Sys) returns (pid: nat)
    requires Sane(s) && Legal(s, ForkStep)
    ensures pid < |s.task| && s.task[pid].None? && forall j :: 0 <= j < pid ==> s.task[j].Some?
    ensures var r, p := Do(s, ForkStep), Current(s).priority;
            && OnlySlot(s, r, pid) && r.nrTasks == s.nrTasks + 1
            && r.task[pid] == Some(Task(Running, p, p, 1, pid, 0))
  {
    FreeSlotIs(s.task, 0);
    pid := FreeSlotFrom(s.task, 0).value;
  }

  /** A new task is chosen within 2 * NR_TASKS - 2 reschedules, plus one for every later fork. */
  lemma ChildIsChosen(s: Sys, steps: seq<Step>, t: Sys) returns (pid: nat)
    requires SInv(s) && Legal(s, ForkStep) && Runs(Do(s, ForkStep), steps, t)
    ensures pid < |s.task| && s.task[pid].None? && Runnable(Do(s, ForkStep).task, pid)
    ensures NeverChosen(Do(s, ForkStep), steps, pid) ==>
              Switches(Do(s, ForkStep), steps) <= 2 * NR_TASKS - 2 + Forks(steps)
  {
    pid := ForkEffect(s);
    StepKeeps(s, ForkStep);
    if NeverChosen(Do(s, ForkStep), steps, pid) { BoundedWaiting(Do(s, ForkStep), steps, t, pid); }
  }

  // ---------------------------------------------------------------- killed slots

  /** sys_kill empties the slot and counts it off, except for task 0 and the caller. */
  lemma KillEffect(s: Sys, pid: nat)
    requires SInv(s) && pid < NR_TASKS && s.task[pid].Some?
    ensures var r := Do(s, KillStep(pid));
            if pid == 0 || pid == s.current then r == s
            else OnlySlot(s, r, pid) && r.task[pid].None? && r.nrTasks == s.nrTasks - 1
  {
    assert TaskOk(Current(s), s.current, s.current);
  }

  /** This step is a fork that fills slot i. */
  predicate Fills(s: Sys, a: Step, i: nat)
  {
    a.ForkStep? && FreeSlotFrom(s.task, 0) == Some(i)
  }

  ghost predicate NeverFilled(s: Sys, steps: seq<Step>, i: nat)
    requires Sane(s)
    decreases |steps|
  {
    steps == [] || (!Fills(s, steps[0], i) && NeverFilled(Do(s, steps[0]), steps[1..], i))
  }

  lemma StepKeepsEmpty(s: Sys, a: Step, i: nat)
    requires SInv(s) && Legal(s, a) && !Fills(s, a, i) && i < |s.task| && s.task[i].None?
    ensures Do(s, a).task[i].None? && |Do(s, a).task| == |s.task|
    ensures Do(s, a).current != i
  {
    StepKeeps(s, a);
    if Reschedules(s, a) { RescheduleEffect(s, a); }
    else if a.WakeStep? { WakeEffect(s); }
    else if a.ForkStep? { var pid := ForkEffect(s); }
  }

  lemma {:induction false} EmptyNotChosen(s: Sys, steps: seq<Step>, t: Sys, i: nat)
    requires SInv(s) && Runs(s, steps, t) && NeverFilled(s, steps, i) && i < |s.task| && s.task[i].None?
    ensures i < |t.task| && t.task[i].None? && i !in Picks(s, steps)
    decreases |steps|
  {
    if steps != [] {
      var r := Do(s, steps[0]);
      StepKeeps(s, steps[0]);
      StepKeepsEmpty(s, steps[0], i);
      EmptyNotChosen(r, steps[1..], t, i);
      assert Reschedules(s, steps[0]) ==> Picks(s, steps) == [r.current] + Picks(r, steps[1..]);
      assert !Reschedules(s, steps[0]) ==> Picks(s, steps) == [] + Picks(r, steps[1..]);
    }
  }

  /** A killed slot stays empty, and is not chosen, until a fork fills it. */
  lemma KilledNotChosen(s: Sys, pid: nat, steps: seq<Step>, t: Sys)
    requires SInv(s) && Legal(s, KillStep(pid)) && pid != 0 && pid != s.current
    requires Runs(Do(s, KillStep(pid)), steps, t) && NeverFilled(Do(s, KillStep(pid)), steps, pid)
    ensures pid < |t.task| && t.task[pid].None? && pid !in Picks(Do(s, KillStep(pid)), steps)
  {
    KillEffect(s, pid);
    StepKeeps(s, KillStep(pid));
    EmptyNotChosen(Do(s, KillStep(pid)), steps, t, pid);
  }
}
