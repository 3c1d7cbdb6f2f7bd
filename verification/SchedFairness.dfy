/** Bounded waiting, one pick per slot between refills, and what never happens to a task. */
module SchedFairness {
  import opened Seqs
  import opened Sched
  import opened SchedTheorems

  // ---------------------------------------------------------------- bounded waiting

  /** Slot i still has time and can come before slot w. */
  predicate Ahead(s: Sys, w: nat, i: nat)
  {
    i < |s.task| && i != w && i != s.current && s.task[i].Some? && s.task[i].value.counter > 0
  }

  function CountAhead(s: Sys, w: nat, n: nat): nat
  {
    if n == 0 then 0 else CountAhead(s, w, n - 1) + if Ahead(s, w, n - 1) then 1 else 0
  }

  /** An upper bound for how often others can be chosen before w is. */
  function Delay(s: Sys, w: nat): nat
    requires w < |s.task| && s.task[w].Some?
  {
    CountAhead(s, w, |s.task|) + if s.task[w].value.counter <= 0 then NR_TASKS else 0
  }

  lemma {:induction false} CountMonotone(s: Sys, r: Sys, w: nat, n: nat)
    requires forall i: nat :: i < n && Ahead(r, w, i) ==> Ahead(s, w, i)
    ensures CountAhead(r, w, n) <= CountAhead(s, w, n)
  {
    if n > 0 { CountMonotone(s, r, w, n - 1); }
  }

  lemma {:induction false} CountLess(s: Sys, r: Sys, w: nat, n: nat, j: nat)
    requires forall i: nat :: i < n && Ahead(r, w, i) ==> Ahead(s, w, i)
    requires j < n && Ahead(s, w, j) && !Ahead(r, w, j)
    ensures CountAhead(r, w, n) < CountAhead(s, w, n)
  {
    if j == n - 1 { CountMonotone(s, r, w, n - 1); } else { CountLess(s, r, w, n - 1, j); }
  }

  lemma {:induction false} CountMore(s: Sys, r: Sys, w: nat, n: nat, j: nat)
    requires forall i: nat :: i < n && i != j && Ahead(r, w, i) ==> Ahead(s, w, i)
    ensures CountAhead(r, w, n) <= CountAhead(s, w, n) + 1
  {
    if n > 0 { if n - 1 == j { CountMonotone(s, r, w, n - 1); } else { CountMore(s, r, w, n - 1, j); } }
  }

  /** Neither w nor the current task is counted. */
  lemma {:induction false} CountBound(s: Sys, w: nat, n: nat)
    requires w != s.current
    ensures CountAhead(s, w, n) <= n
    ensures w < n && s.current < n ==> CountAhead(s, w, n) <= n - 2
    ensures w < n || s.current < n ==> CountAhead(s, w, n) <= n - 1
  {
    if n > 0 { CountBound(s, w, n - 1); }
  }

  /** Choosing another task brings w closer. */
  lemma RescheduleDelay(s: Sys, w: nat)
    requires Leaving(s) && w < NR_TASKS && w != s.current && Runnable(s.task, w)
    requires Reschedule(s).current != w
    ensures Runnable(Reschedule(s).task, w)
    ensures Delay(Reschedule(s), w) < Delay(s, w)
  {
    PickOnLeaving(s);
    var d := PreemptDisable(s);
    var (task, next) := Pick(d.task);
    var r := Reschedule(s);
    assert TaskOk(s.task[w].value, w, s.current);
    assert r.current == next;
    if task == d.task {
      assert forall i: nat :: i < NR_TASKS && Ahead(r, w, i) ==> Ahead(s, w, i);
      CountLess(s, r, w, NR_TASKS, next);
    } else {
      SelectBest(d.task);
      assert Runnable(d.task, w) && s.task[w].value.counter <= 0;
      CountBound(r, w, NR_TASKS);
    }
  }

  lemma WaitDelay(s: Sys, w: nat)
    requires SInv(s) && s.current != 0 && w < NR_TASKS && w != s.current && Runnable(s.task, w)
    requires Wait(s).current != w
    ensures Runnable(Wait(s).task, w) && Delay(Wait(s), w) < Delay(s, w)
  {
    WaitLeaves(s);
    WaitIs(s);
    RescheduleDelay(WaitLeaving(s), w);
    CountMonotone(s, WaitLeaving(s), w, NR_TASKS);
  }

  lemma ExitDelay(s: Sys, w: nat)
    requires SInv(s) && s.current != 0 && w < NR_TASKS && w != s.current && Runnable(s.task, w)
    requires Exit(s).current != w
    ensures Runnable(Exit(s).task, w) && Delay(Exit(s), w) < Delay(s, w)
  {
    ExitLeaves(s);
    ExitIs(s);
    RescheduleDelay(ExitLeaving(s), w);
    CountMonotone(s, ExitLeaving(s), w, NR_TASKS);
  }

  /** What w waits for does not grow in any step that does not choose it, except by a fork. */
  lemma StepDelay(s: Sys, a: Step, w: nat)
    requires SInv(s) && Legal(s, a) && w < NR_TASKS && w != s.current && Runnable(s.task, w)
    requires a != KillStep(w) && Do(s, a).current != w
    ensures Runnable(Do(s, a).task, w)
    ensures Delay(Do(s, a), w) + (if Reschedules(s, a) then 1 else 0) <= Delay(s, w) + if a.ForkStep? then 1 else 0
  {
    var r := Do(s, a);
    match a {
      case YieldStep => YieldDelay(s, w);
      case PreemptStep => if Preemptible(s) { YieldDelay(s, w); }
      case WaitStep => WaitDelay(s, w);
      case ExitStep => ExitDelay(s, w);
      case ForkStep =>
        FreeSlotIs(s.task, 0);
        CountMore(s, r, w, NR_TASKS, FreeSlotFrom(s.task, 0).value);
      case WakeStep =>
        forall i: nat | i < NR_TASKS && s.task[i].Some?
          ensures r.task[i].value.counter == s.task[i].value.counter
          ensures s.task[i].value.state == Running ==> r.task[i].value.state == Running
        {
          WakeAllIs(s.task, s.waitQueue, i);
        }
        CountMonotone(s, r, w, NR_TASKS);
      case KillStep(pid) => CountMonotone(s, r, w, NR_TASKS);
      case TickStep => CountMonotone(s, r, w, NR_TASKS);
      case OpenStep => CountMonotone(s, r, w, NR_TASKS);
      case CloseStep => CountMonotone(s, r, w, NR_TASKS);
    }
  }

  lemma YieldDelay(s: Sys, w: nat)
    requires SInv(s) && w < NR_TASKS && w != s.current && Runnable(s.task, w) && Yield(s).current != w
    ensures Runnable(Yield(s).task, w) && Delay(Yield(s), w) < Delay(s, w)
  {
    YieldKeeps(s);
    var l := SetCurrent(s, Current(s).(counter := 0));
    RescheduleDelay(l, w);
    CountMonotone(s, l, w, NR_TASKS);
  }

  /** How many of the steps run _schedule, and how many fork. */
  function Switches(s: Sys, steps: seq<Step>): nat
    requires Sane(s)
    decreases |steps|
  {
    if steps == [] then 0 else (if Reschedules(s, steps[0]) then 1 else 0) + Switches(Do(s, steps[0]), steps[1..])
  }

  function Forks(steps: seq<Step>): nat
  {
    if steps == [] then 0 else (if steps[0].ForkStep? then 1 else 0) + Forks(steps[1..])
  }

  /** w is not chosen during the run and nobody kills it. */
  ghost predicate NeverChosen(s: Sys, steps: seq<Step>, w: nat)
    requires Sane(s)
    decreases |steps|
  {
    s.current != w &&
    (steps != [] ==> steps[0] != KillStep(w) && NeverChosen(Do(s, steps[0]), steps[1..], w))
  }

  lemma {:induction false} WaitingBounded(s: Sys, steps: seq<Step>, t: Sys, w: nat)
    requires SInv(s) && Runs(s, steps, t) && w < NR_TASKS && Runnable(s.task, w) && NeverChosen(s, steps, w)
    ensures Switches(s, steps) <= Delay(s, w) + Forks(steps)
    decreases |steps|
  {
    if steps != [] {
      var r := Do(s, steps[0]);
      StepKeeps(s, steps[0]);
      StepDelay(s, steps[0], w);
      WaitingBounded(r, steps[1..], t, w);
    }
  }

  /** A runnable task is chosen within 2 * NR_TASKS reschedules, plus one for every fork meanwhile,
      whatever the other tasks do. */
  lemma BoundedWaiting(s: Sys, steps: seq<Step>, t: Sys, w: nat)
    requires SInv(s) && Runs(s, steps, t) && w < NR_TASKS && Runnable(s.task, w) && NeverChosen(s, steps, w)
    ensures Switches(s, steps) <= 2 * NR_TASKS - 2 + Forks(steps)
  {
    WaitingBounded(s, steps, t, w);
    CountBound(s, w, NR_TASKS);
  }

  // ---------------------------------------------------------------- one pick per slot between refills

  /** The reschedule that this step makes, if any, refills the counters. */
  predicate RefillsNow(s: Sys, a: Step)
    requires Sane(s)
  {
    Reschedules(s, a) && Select(PreemptDisable(LeavingState(s, a)).task).0 == 0
  }

  /** The state in which the step enters _schedule. */
  function LeavingState(s: Sys, a: Step): (r: Sys)
    requires Sane(s)
    ensures Sane(r)
  {
    match a
    case WaitStep => WaitLeaving(s)
    case ExitStep => ExitLeaving(s)
    case _ => SetCurrent(s, Current(s).(counter := 0))
  }

  lemma StepIsReschedule(s: Sys, a: Step)
    requires SInv(s) && Legal(s, a) && Reschedules(s, a)
    ensures Leaving(LeavingState(s, a)) && Do(s, a) == Reschedule(LeavingState(s, a))
  {
    match a {
      case WaitStep => WaitLeaves(s); WaitIs(s);
      case ExitStep => ExitLeaves(s); ExitIs(s);
      case _ => YieldKeeps(s);
    }
  }

  /** The slots chosen during the run, in order. */
  function Picks(s: Sys, steps: seq<Step>): seq<nat>
    requires Sane(s)
    decreases |steps|
  {
    if steps == [] then []
    else
      var r := Do(s, steps[0]);
      (if Reschedules(s, steps[0]) then [r.current] else []) + Picks(r, steps[1..])
  }

  /** No step of the run refills counters or adds a task. */
  ghost predicate Quiet(s: Sys, steps: seq<Step>)
    requires Sane(s)
    decreases |steps|
  {
    steps == [] || (!RefillsNow(s, steps[0]) && !steps[0].ForkStep? && Quiet(Do(s, steps[0]), steps[1..]))
  }

  /** Slot i cannot be chosen before the next refill. */
  predicate Spent(s: Sys, i: nat)
  {
    i < |s.task| && (s.task[i].None? || i == s.current || s.task[i].value.counter <= 0)
  }

  lemma StepKeepsSpent(s: Sys, a: Step, i: nat)
    requires SInv(s) && Legal(s, a) && !RefillsNow(s, a) && !a.ForkStep? && Spent(s, i)
    ensures Spent(Do(s, a), i)
    ensures Reschedules(s, a) ==> Do(s, a).current != i
  {
    if Reschedules(s, a) {
      var l := LeavingState(s, a);
      StepIsReschedule(s, a);
      PickOnLeaving(l);
    } else {
      match a {
        case WakeStep => if s.task[i].Some? { WakeAllIs(s.task, s.waitQueue, i); }
        case _ =>
      }
    }
  }

  lemma StepSpendsPick(s: Sys, a: Step)
    requires SInv(s) && Legal(s, a) && Reschedules(s, a)
    ensures Spent(Do(s, a), Do(s, a).current)
  {
  }

  lemma {:induction false} SpentNotPicked(s: Sys, steps: seq<Step>, t: Sys, i: nat)
    requires SInv(s) && Runs(s, steps, t) && Quiet(s, steps) && Spent(s, i)
    ensures i !in Picks(s, steps)
    decreases |steps|
  {
    if steps != [] {
      StepKeeps(s, steps[0]);
      StepKeepsSpent(s, steps[0], i);
      SpentNotPicked(Do(s, steps[0]), steps[1..], t, i);
    }
  }

  /** Between refills, with the task table fixed but for kills, no slot is chosen twice. */
  lemma {:induction false} PickedOnce(s: Sys, steps: seq<Step>, t: Sys)
    requires SInv(s) && Runs(s, steps, t) && Quiet(s, steps)
    ensures NoDup(Picks(s, steps))
    decreases |steps|
  {
    if steps != [] {
      var r := Do(s, steps[0]);
      StepKeeps(s, steps[0]);
      PickedOnce(r, steps[1..], t);
      if Reschedules(s, steps[0]) {
        StepSpendsPick(s, steps[0]);
        SpentNotPicked(r, steps[1..], t, r.current);
        NoDupCons(r.current, Picks(r, steps[1..]));
      } else {
        assert [] + Picks(r, steps[1..]) == Picks(r, steps[1..]);
      }
    }
  }

  // ---------------------------------------------------------------- what never happens

  /** A task inside a disable section is not descheduled against its will. */
  lemma NoPreemptionInsideSection(s: Sys)
    requires SInv(s) && Current(s).open > 0
    ensures Preempt(s) == s
  {
    assert TaskOk(Current(s), s.current, s.current);
  }

  predicate IsZombie(s: Sys, z: nat)
  {
    z < |s.task| && s.task[z].Some? && s.task[z].value.state == Zombie
  }

  lemma ZombieStaysOut(s: Sys, a: Step, z: nat)
    requires SInv(s) && Legal(s, a) && a != KillStep(z) && !Reschedules(s, a) && IsZombie(s, z)
    ensures IsZombie(Do(s, a), z)
  {
    match a {
      case WakeStep => WakeAllIs(s.task, s.waitQueue, z);
      case ForkStep => FreeSlotIs(s.task, 0);
      case _ =>
    }
  }

  lemma ZombieStep(s: Sys, a: Step, z: nat)
    requires SInv(s) && Legal(s, a) && a != KillStep(z) && IsZombie(s, z)
    ensures IsZombie(Do(s, a), z)
  {
    if Reschedules(s, a) {
      StepIsReschedule(s, a);
      PickOnLeaving(LeavingState(s, a));
    } else {
      ZombieStaysOut(s, a, z);
    }
  }

  /** A zombie stays one, and is neither chosen nor woken, until it is killed. */
  lemma {:induction false} ZombieForever(s: Sys, steps: seq<Step>, t: Sys, z: nat)
    requires SInv(s) && Runs(s, steps, t) && KillStep(z) !in steps && IsZombie(s, z)
    ensures IsZombie(t, z) && t.current != z
    decreases |steps|
  {
    if steps != [] {
      StepKeeps(s, steps[0]);
      ZombieStep(s, steps[0], z);
      ZombieForever(Do(s, steps[0]), steps[1..], t, z);
    }
  }
}
