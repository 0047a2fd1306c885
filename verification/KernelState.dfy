/** The state of the thread kernel and what one trap does to it.

    The main loop has no timer branch: a thread runs until its next system call, so one step is the run of the
    first ready thread up to and including one trap.
  */
module KernelStates {
  import opened Options
  import opened Sync
  import opened ProcThreadRels

  /** A process's synchronisation objects; its other resources play no part here. */
  datatype Proc = Proc(semaphores: seq<Option<SemaphoreState>>, mutexes: seq<Option<MutexState>>,
                       owners: seq<Option<Tid>>, condvars: seq<Option<seq<Tid>>>, detect: bool)

  const NEW_PROC: Proc := Proc([], [], [], [], false)

  datatype Trap =
    | Exit(code: int)
    | Unsupported
    | Fault
    | Other
    | Fork
    | Exec
    | Wait(child: Pid)
    | ThreadCreate
    | WaitTid(tid: Tid)
    | SemaphoreCreate(resCount: nat)
    | SemaphoreUp(id: nat)
    | SemaphoreDown(id: nat)
    | MutexCreate(blocking: bool)
    | MutexLock(id: nat)
    | MutexUnlock(id: nat)
    | CondvarCreate
    | CondvarSignal(id: nat)
    | CondvarWait(id: nat, mutex: nat)
    | EnableDeadlockDetect(flag: int)

  const DEADLOCK: int := -0xDEAD

  datatype Kernel = Kernel(tasks: set<Tid>, ready: seq<Tid>, current: Option<Tid>, tid2pid: map<Tid, Pid>,
                           rel: map<Pid, RelState>, procs: map<Pid, Proc>, nextTid: nat, nextPid: nat) {

    // ---- the thread manager ----

    /** Dequeues the next thread; a dequeued id without a thread yields nothing. */
    function FindNext(): Kernel {
      if ready == [] then this
      else this.(ready := ready[1..], current := if ready[0] in tasks then Some(ready[0]) else current)
    }

    function MakeCurrentSuspend(): Kernel {
      if current.None? then this else this.(ready := ready + [current.value], current := None)
    }

    function MakeCurrentBlocked(): Kernel { this.(current := None) }

    function ReEnque(tid: Tid): Kernel { this.(ready := ready + [tid]) }

    function Add(tid: Tid, pid: Pid): Kernel {
      var k := this.(tasks := tasks + {tid}, ready := ready + [tid]);
      if pid in rel then k.(rel := rel[pid := rel[pid].AddThread(tid)], tid2pid := tid2pid[tid := pid]) else k
    }

    function AddProc(pid: Pid, proc: Proc, parent: Pid): Kernel {
      var r := if parent in rel then rel[parent := rel[parent].AddChild(pid)] else rel;
      this.(procs := procs[pid := proc], rel := r[pid := NewRel(parent)])
    }

    /** `make_current_exited`, where the unwraps of the code succeed. */
    predicate CanExit() {
      current.Some? ==>
        && current.value in tid2pid
        && var pid := tid2pid[current.value];
           pid in rel && rel[pid].DelThread(current.value, 0).threads == [] ==> CanDelProc(pid)
    }

    /** The process is there, its children are, and so is process 0 when there are children to hand over. */
    predicate CanDelProc(pid: Pid) {
      && pid in rel
      && (forall k :: 0 <= k < |rel[pid].children| ==> rel[pid].children[k] in rel && rel[pid].children[k] != pid)
      && (rel[pid].children != [] ==> pid != 0 && 0 in rel)
    }

    function MakeCurrentExited(code: int): Kernel
      requires CanExit()
    {
      if current.None? then this
      else
        var tid := current.value;
        var pid := tid2pid[tid];
        var k := this.(tasks := tasks - {tid}, tid2pid := tid2pid - {tid}, current := None);
        if pid !in rel then k
        else
          var k := k.(rel := rel[pid := rel[pid].DelThread(tid, code)]);
          if k.rel[pid].threads == [] then k.DelProc(pid, code) else k
    }

    /** Removes a process: the parent is told, the children go to process 0. */
    function DelProc(pid: Pid, code: int): Kernel
      requires pid in rel
    {
      var r := rel - {pid};
      var parent := rel[pid].parent;
      var r := if parent in r then r[parent := r[parent].DelChild(pid, code)] else r;
      this.(procs := procs - {pid}, rel := Reparent(r, rel[pid].children))
    }

    function WaitFor(child: Pid): (Kernel, Option<(Pid, int)>)
      requires HasCurrent()
    {
      var pid := tid2pid[current.value];
      var (r, found) := if child == USIZE_MAX then rel[pid].WaitAnyChild() else rel[pid].WaitChild(child);
      (this.(rel := rel[pid := r]), found)
    }

    function WaitForThread(tid: Tid): (Kernel, Option<int>)
      requires HasCurrent()
    {
      var pid := tid2pid[current.value];
      var (r, found) := rel[pid].WaitThread(tid);
      (this.(rel := rel[pid := r]), found)
    }

    // ---- system calls ----

    /** The running thread belongs to a process that is there. */
    predicate HasCurrent() {
      current.Some? && current.value in tid2pid && tid2pid[current.value] in rel && tid2pid[current.value] in procs
    }

    function CurrentPid(): Pid
      requires HasCurrent()
    {
      tid2pid[current.value]
    }

    function CurrentProc(): Proc
      requires HasCurrent()
    {
      procs[CurrentPid()]
    }

    function PutProc(proc: Proc): Kernel
      requires HasCurrent()
    {
      this.(procs := procs[CurrentPid() := proc])
    }

    function Wake(waking: Option<Tid>): Kernel { if waking.None? then this else ReEnque(waking.value) }

    /** What the code requires of the arguments of a call: an index or an `unwrap` fails otherwise. */
    predicate Legal(t: Trap)
      requires HasCurrent()
    {
      var p := CurrentProc();
      match t
      case Exit(_) => CanExit()
      case Unsupported => CanExit()
      case Fault => CanExit()
      case SemaphoreUp(id) => id < |p.semaphores| && p.semaphores[id].Some?
      case SemaphoreDown(id) => id < |p.semaphores| && p.semaphores[id].Some?
      case MutexLock(id) => id < |p.mutexes| && id < |p.owners| && p.mutexes[id].Some?
      case MutexUnlock(id) => id < |p.mutexes| && id < |p.owners| && p.mutexes[id].Some? && p.mutexes[id].value.locked
      case CondvarSignal(id) => id < |p.condvars| && p.condvars[id].Some?
      case CondvarWait(id, mutex) =>
        && id < |p.condvars| && p.condvars[id].Some? && mutex < |p.mutexes| && p.mutexes[mutex].Some?
        && p.mutexes[mutex].value.locked && p.mutexes[mutex].value.queue != []
      case Fork => nextPid < STILL_RUNNING
      case Exec => nextPid < STILL_RUNNING
      case _ => true
    }

    /** State and return value after the call, before the scheduler acts on it. */
    function Syscall(t: Trap): (Kernel, int)
      requires HasCurrent() && Legal(t)
    {
      var p := CurrentProc();
      var tid := current.value;
      match t
      case Exit(code) => (this, code)
      case Unsupported => (this, 0)
      case Fault => (this, 0)
      case Other => (this, 0)
      case Fork =>
        var pid := nextPid;
        var k := this.(nextPid := nextPid + 1, nextTid := nextTid + 1);
        (k.AddProc(pid, NEW_PROC, CurrentPid()).Add(nextTid, pid), pid)
      case Exec => (this.(nextPid := nextPid + 1, nextTid := nextTid + 1), 0)
      case Wait(child) =>
        var (k, found) := WaitFor(child);
        (k, if found.None? then -1 else if found.value.0 == STILL_RUNNING then -2 else found.value.0)
      case ThreadCreate => (this.(nextTid := nextTid + 1).Add(nextTid, CurrentPid()), nextTid)
      case WaitTid(target) =>
        if target == tid then (this, -1)
        else
          var (k, found) := WaitForThread(target);
          (k, if found.None? then -1 else found.value)
      case SemaphoreCreate(resCount) =>
        var id := FirstFree(p.semaphores);
        (PutProc(p.(semaphores := Fill(p.semaphores, id, Some(SemaphoreState(resCount, []))))), id)
      case SemaphoreUp(id) =>
        var s := p.semaphores[id].value;
        (PutProc(p.(semaphores := p.semaphores[id := Some(s.Up())])).Wake(s.Granted()), 0)
      case SemaphoreDown(id) =>
        var s := p.semaphores[id].value;
        (PutProc(p.(semaphores := p.semaphores[id := Some(s.Down(tid))])), if s.count > 0 then 0 else -1)
      case MutexCreate(blocking) =>
        var id := FirstFree(p.mutexes);
        (PutProc(p.(mutexes := Fill(p.mutexes, id, if blocking then Some(FREE) else None),
          owners := Fill(p.owners, id, None))), id)
      case MutexLock(id) =>
        var m := p.mutexes[id].value;
        if p.detect && p.owners[id] == Some(tid) then (this, DEADLOCK)
        else
          var owners := if m.locked then p.owners else p.owners[id := Some(tid)];
          (PutProc(p.(mutexes := p.mutexes[id := Some(m.Lock(tid))], owners := owners)), if m.locked then -1 else 0)
      case MutexUnlock(id) =>
        var m := p.mutexes[id].value;
        (PutProc(p.(mutexes := p.mutexes[id := Some(m.Unlock())],
          owners := p.owners[id := m.Granted()])).Wake(m.Granted()), 0)
      case CondvarCreate =>
        var id := FirstFree(p.condvars);
        (PutProc(p.(condvars := Fill(p.condvars, id, Some([])))), id)
      case CondvarSignal(id) =>
        var q := p.condvars[id].value;
        if q == [] then (this, 0) else (PutProc(p.(condvars := p.condvars[id := Some(q[1..])])).ReEnque(q[0]), 0)
      case CondvarWait(id, mutex) =>
        var m := p.mutexes[mutex].value;
        (PutProc(p.(mutexes := p.mutexes[mutex := Some(m.Unlock().Lock(tid))])).Wake(m.Granted()), -1)
      case EnableDeadlockDetect(flag) =>
        if flag == 1 then (PutProc(p.(detect := true)), 0)
        else if flag == 0 then (PutProc(p.(detect := false)), 0)
        else (this, -1)
    }

    /** The scheduler's part of a trap. */
    function AfterSyscall(t: Trap, ret: int): Kernel
      requires t.Exit? || t.Unsupported? || t.Fault? ==> CanExit()
    {
      match t
      case Exit(_) => MakeCurrentExited(ret)
      case Unsupported => MakeCurrentExited(-2)
      case Fault => MakeCurrentExited(-3)
      case SemaphoreDown(_) => if ret == -1 then MakeCurrentBlocked() else MakeCurrentSuspend()
      case MutexLock(_) => if ret == -1 then MakeCurrentBlocked() else MakeCurrentSuspend()
      case CondvarWait(_, _) => if ret == -1 then MakeCurrentBlocked() else MakeCurrentSuspend()
      case _ => MakeCurrentSuspend()
    }

    /** The running thread traps. */
    function Handle(t: Trap): Kernel
      requires HasCurrent() && Legal(t)
    {
      Syscall(t).0.AfterSyscall(t, Syscall(t).1)
    }
  }

  /** Children of an ended process get process 0 as their parent. */
  function Reparent(rel: map<Pid, RelState>, children: seq<Pid>): map<Pid, RelState> {
    if children == [] then rel else Reparent(ReparentOne(rel, children[0]), children[1..])
  }

  function ReparentOne(rel: map<Pid, RelState>, c: Pid): map<Pid, RelState> {
    var r := if c in rel then rel[c := rel[c].(parent := 0)] else rel;
    if 0 in r then r[0 := r[0].AddChild(c)] else r
  }

  function FirstFree<T>(s: seq<Option<T>>): (k: nat)
    ensures k <= |s| && (k < |s| ==> s[k].None?) && forall j :: 0 <= j < k ==> s[j].Some?
  {
    if s == [] || s[0].None? then 0 else 1 + FirstFree(s[1..])
  }

  function Fill<T>(s: seq<T>, k: nat, x: T): seq<T> { if k < |s| then s[k := x] else s + [x] }
}
