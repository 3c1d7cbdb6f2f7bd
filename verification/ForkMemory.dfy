/** copy_process of src/fork.c together with the kmalloc it calls for the task structure. */
module ForkMemory {
  import opened Seqs
  import opened Bits
  import opened Buddy
  import opened BuddyTheorems
  import opened Slab
  import opened SlabRuns
  import opened KmallocRuns
  import Sched
  import SchedTheorems

  /** copy_process, given what kmalloc returned: None if C has used a null page inside kmalloc, the state
      with the section still open if the failure return (lines 21-24) is taken, else the fork. */
  function CopyProcess(s: Sched.Sys, r: Outcome): Option<Sched.Sys>
    requires Sched.Sane(s)
  {
    match r
    case Fault => None
    case Null => Some(Sched.PreemptDisable(s))
    case Addr(_) => Some(Sched.Fork(s))
  }

  /** A request for one page never gets NULL; it uses a null page if and only if every frame is taken. */
  lemma PageRequest(k: Heap, writeBack: bool)
    requires Ok(k, writeBack) && Ready(k)
    ensures !Kmalloc(k, PAGE_SIZE, writeBack).1.Null?
    ensures Kmalloc(k, PAGE_SIZE, writeBack).1.Fault? <==> forall p: nat :: !FreeRun(k.buddy, p, 0)
  {
    KmallocFaults(k, PAGE_SIZE, writeBack);
    assert Pow2(12) == 4096;
    assert BlockBytes(0) == PAGE_SIZE;
    assert PageOrder(PAGE_SIZE, 0) == 0;
  }

  /** The failure return of copy_process, which would leave its disable section open, is never taken:
      the call faults if and only if no page frame is left, and otherwise keeps the counts balanced. */
  lemma CopyProcessMemory(k: Heap, s: Sched.Sys, writeBack: bool)
    requires Ok(k, writeBack) && Ready(k) && SchedTheorems.SInv(s)
    ensures var r := CopyProcess(s, Kmalloc(k, PAGE_SIZE, writeBack).1);
            && (r.None? <==> forall p: nat :: !FreeRun(k.buddy, p, 0))
            && (r.Some? ==> r == Some(Sched.Fork(s)) && SchedTheorems.SInv(r.value))
    ensures !SchedTheorems.SInv(CopyProcess(s, Null).value)
  {
    PageRequest(k, writeBack);
    SchedTheorems.ForkKeeps(s);
    var d := Sched.PreemptDisable(s);
    assert SchedTheorems.TaskOk(Sched.Current(s), s.current, s.current);
    assert !SchedTheorems.TaskOk(d.task[d.current].value, d.current, d.current);
  }
}
