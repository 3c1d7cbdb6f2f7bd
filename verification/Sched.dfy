/** The task table, the counter scheduler, the preemption count and the wait queue of src/sched.c,
    src/fork.c, src/wait.c and src/sys.c, as steps of a transition system.

    A C function is one step.  Inside _schedule control passes to the continuation of another task:
    whichever it is, a task that was switched out earlier or one just forked, the first thing it does
    is to close a disable section of its own (src/sched.c:53 or src/sched.c:77-80). */
module Sched {
  import opened Seqs

  const NR_TASKS: nat := 64

  datatype RunState = Running | Waiting | Zombie

  /** `open` is not a field of task_struct: it counts the disable sections the task is inside. */
  datatype Task = Task(state: RunState, counter: int, priority: int, preemptCount: int, pid: nat, open: nat)

  datatype Sys = Sys(task: seq<Option<Task>>, current: nat, nrTasks: int, waitQueue: seq<nat>)

  /** What the code never checks: the table has its size and `current` is in it. */
  predicate Sane(s: Sys)
  {
    |s.task| == NR_TASKS && s.current < NR_TASKS && s.task[s.current].Some?
  }

  function Current(s: Sys): Task
    requires Sane(s)
  {
    s.task[s.current].value
  }

  function SetCurrent(s: Sys, t: Task): (r: Sys)
    requires Sane(s)
    ensures Sane(r)
  {
    s.(task := s.task[s.current := Some(t)])
  }

  // ---------------------------------------------------------------- selection and refill

  predicate Runnable(task: seq<Option<Task>>, i: nat)
  {
    i < |task| && task[i].Some? && task[i].value.state == Running
  }

  /** The selection loop (src/sched.c:32-38) from slot i on. */
  function SelectFrom(task: seq<Option<Task>>, i: nat, c: int, next: nat): (int, nat)
    decreases |task| - i
  {
    if i >= |task| then (c, next)
    else if Runnable(task, i) && task[i].value.counter > c then SelectFrom(task, i + 1, task[i].value.counter, i)
    else SelectFrom(task, i + 1, c, next)
  }

  function Select(task: seq<Option<Task>>): (int, nat)
  {
    SelectFrom(task, 0, -1, 0)
  }

  function RefillOne(t: Option<Task>): Option<Task>
  {
    match t
    case None => None
    case Some(p) => Some(p.(counter := p.counter / 2 + p.priority))
  }

  /** The refill loop (src/sched.c:42-47); >> 1 on a long is division by two, rounding down. */
  function Refill(task: seq<Option<Task>>): (r: seq<Option<Task>>)
    ensures |r| == |task| && forall i :: 0 <= i < |task| ==> r[i] == RefillOne(task[i])
  {
    seq(|task|, i requires 0 <= i < |task| => RefillOne(task[i]))
  }

  /** The table and the chosen slot when the loop of _schedule ends: after one pass, or after a refill
      and a second pass. */
  function Pick(task: seq<Option<Task>>): (seq<Option<Task>>, nat)
  {
    if Select(task).0 != 0 then (task, Select(task).1) else (Refill(task), Select(Refill(task)).1)
  }

  // ---------------------------------------------------------------- the steps

  function PreemptDisable(s: Sys): (r: Sys)
    requires Sane(s)
    ensures Sane(r)
  {
    SetCurrent(s, Current(s).(preemptCount := Current(s).preemptCount + 1))
  }

  function PreemptEnable(s: Sys): (r: Sys)
    requires Sane(s)
    ensures Sane(r)
  {
    SetCurrent(s, Current(s).(preemptCount := Current(s).preemptCount - 1))
  }

  /** _schedule, to the point where the chosen task has closed its section.  An empty slot cannot be
      switched to; C would load its context from address 0. */
  function Reschedule(s: Sys): (r: Sys)
    requires Sane(s)
    ensures Sane(r)
  {
    var d := PreemptDisable(s);
    var (task, next) := Pick(d.task);
    if next < |task| && task[next].Some? && |task| == NR_TASKS then
      PreemptEnable(d.(task := task, current := next))
    else s
  }

  /** schedule */
  function Yield(s: Sys): (r: Sys)
    requires Sane(s)
    ensures Sane(r)
  {
    Reschedule(SetCurrent(s, Current(s).(counter := 0)))
  }

  /** timer_tick */
  function Tick(s: Sys): (r: Sys)
    requires Sane(s)
    ensures Sane(r)
  {
    SetCurrent(s, Current(s).(counter := Current(s).counter - 1))
  }

  predicate Preemptible(s: Sys)
    requires Sane(s)
  {
    Current(s).counter <= 0 && Current(s).preemptCount <= 0
  }

  /** task_preemption */
  function Preempt(s: Sys): (r: Sys)
    requires Sane(s)
    ensures Sane(r)
  {
    if Preemptible(s) then Yield(s) else s
  }

  /** A caller of preempt_disable opens a section, a caller of preempt_enable closes it. */
  function Open(s: Sys): (r: Sys)
    requires Sane(s)
    ensures Sane(r)
  {
    var d := PreemptDisable(s);
    SetCurrent(d, Current(d).(open := Current(d).open + 1))
  }

  function Close(s: Sys): (r: Sys)
    requires Sane(s)
    ensures Sane(r)
  {
    var d := PreemptEnable(s);
    SetCurrent(d, Current(d).(open := if Current(d).open > 0 then Current(d).open - 1 else 0))
  }

  /** The search of assignPID from slot i on. */
  function FreeSlotFrom(task: seq<Option<Task>>, i: nat): Option<nat>
    decreases |task| - i
  {
    if i >= |task| then None else if task[i].None? then Some(i) else FreeSlotFrom(task, i + 1)
  }

  /** copy_process, given that memory is available: the child starts switched out, inside the section
      that schedule_tail closes.  Without a free slot C writes before the table. */
  function Fork(s: Sys): (r: Sys)
    requires Sane(s)
    ensures Sane(r)
  {
    match FreeSlotFrom(s.task, 0)
    case None => s
    case Some(pid) =>
      if pid < |s.task| then
        var p := Current(s).priority;
        s.(task := s.task[pid := Some(Task(Running, p, p, 1, pid, 0))], nrTasks := s.nrTasks + 1)
      else s
  }

  /** wait */
  function Wait(s: Sys): (r: Sys)
    requires Sane(s)
    ensures Sane(r)
  {
    Yield(SetCurrent(s, Current(s).(state := Waiting)).(waitQueue := s.waitQueue + [s.current]))
  }

  /** The body of the loop of wake_up, for every entry of the queue in turn. */
  function WakeAll(task: seq<Option<Task>>, q: seq<nat>): (r: seq<Option<Task>>)
    ensures |r| == |task|
    ensures forall i :: 0 <= i < |task| ==> (r[i].Some? <==> task[i].Some?)
    decreases |q|
  {
    if q == [] then task
    else if q[0] < |task| && task[q[0]].Some? then
      WakeAll(task[q[0] := Some(task[q[0]].value.(state := Running))], q[1..])
    else WakeAll(task, q[1..])
  }

  /** wake_up */
  function Wake(s: Sys): (r: Sys)
    requires Sane(s)
    ensures Sane(r)
  {
    s.(task := WakeAll(s.task, s.waitQueue), waitQueue := [])
  }

  /** exit_process */
  function Exit(s: Sys): (r: Sys)
    requires Sane(s)
    ensures Sane(r)
  {
    Yield(PreemptEnable(SetCurrent(PreemptDisable(s), Current(PreemptDisable(s)).(state := Zombie))))
  }

  /** sys_kill */
  function Kill(s: Sys, pid: nat): (r: Sys)
    requires Sane(s)
    ensures Sane(r)
  {
    if Current(s).pid == pid || pid == 0 || pid >= |s.task| || pid == s.current then s
    else s.(task := s.task[pid := None], nrTasks := s.nrTasks - 1)
  }

  datatype Step = TickStep | PreemptStep | YieldStep | OpenStep | CloseStep | ForkStep | WaitStep | WakeStep
                | ExitStep | KillStep(pid: nat)

  function Do(s: Sys, a: Step): (r: Sys)
    requires Sane(s)
    ensures Sane(r)
  {
    match a
    case TickStep => Tick(s)
    case PreemptStep => Preempt(s)
    case YieldStep => Yield(s)
    case OpenStep => Open(s)
    case CloseStep => Close(s)
    case ForkStep => Fork(s)
    case WaitStep => Wait(s)
    case WakeStep => Wake(s)
    case ExitStep => Exit(s)
    case KillStep(pid) => Kill(s, pid)
  }

  /** What the kernel relies on: sections are closed by whoever opened them, a fork finds a slot, task
      0 neither waits nor exits, and kill names an occupied slot whose task is not waiting. */
  predicate Legal(s: Sys, a: Step)
    requires Sane(s)
  {
    match a
    case CloseStep => Current(s).open > 0
    case ForkStep => FreeSlotFrom(s.task, 0).Some?
    case WaitStep => s.current != 0
    case ExitStep => s.current != 0
    case KillStep(pid) => pid < NR_TASKS && s.task[pid].Some? && s.task[pid].value.state != Waiting
    case _ => true
  }

  /** The step runs _schedule. */
  predicate Reschedules(s: Sys, a: Step)
    requires Sane(s)
  {
    a.YieldStep? || a.WaitStep? || a.ExitStep? || (a.PreemptStep? && Preemptible(s))
  }

  ghost predicate Runs(s: Sys, steps: seq<Step>, t: Sys)
    decreases |steps|
  {
    if steps == [] then s == t
    else Sane(s) && Legal(s, steps[0]) && Runs(Do(s, steps[0]), steps[1..], t)
  }

  /** The state at start-up: only init_task, with priority 1. */
  function Boot(): (s: Sys)
    ensures Sane(s)
  {
    Sys(seq(NR_TASKS, i => if i == 0 then Some(Task(Running, 0, 1, 0, 0, 0)) else None), 0, 1, [])
  }
}
