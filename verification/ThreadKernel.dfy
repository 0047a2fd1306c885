/** The kernel as the object the code works on: processor tables updated in place, system calls, main loop. */
module ThreadKernel {
  import opened Options
  import opened Sync
  import opened ProcThreadRels
  import opened KernelStates
  import opened KernelInvariants
  import opened ProcessTrees
  import opened KernelRuns

  class PThreadManager {
    var tasks: set<Tid>
    var readyQueue: seq<Tid>
    var current: Option<Tid>
    var tid2pid: map<Tid, Pid>
    var relMap: map<Pid, RelState>
    var procs: map<Pid, Proc>
    var nextTid: Tid
    var nextPid: Pid

    /** Processor tables with process 0 and its thread 0. */
    constructor ()
      ensures State() == Boot()
    {
      tasks, readyQueue, current, tid2pid, relMap, procs := {}, [], None, map[], map[], map[];
      nextTid, nextPid := 1, 1;
      new;
      AddProc(0, NEW_PROC, USIZE_MAX);
      Add(0, 0);
    }

    function State(): Kernel
      reads this
    {
      Kernel(tasks, readyQueue, current, tid2pid, relMap, procs, nextTid, nextPid)
    }

    // ---- scheduling ----

    method FindNext() returns (found: bool)
      modifies this
      ensures State() == old(State()).FindNext()
      ensures found <==> old(readyQueue) != [] && old(readyQueue)[0] in tasks
    {
      found := false;
      if readyQueue != [] {
        var id := readyQueue[0];
        readyQueue := readyQueue[1..];
        if id in tasks {
          current := Some(id);
          found := true;
        }
      }
    }

    method MakeCurrentSuspend()
      modifies this
      ensures State() == old(State()).MakeCurrentSuspend()
    {
      if current.Some? {
        readyQueue := readyQueue + [current.value];
        current := None;
      }
    }

    method MakeCurrentBlocked()
      modifies this
      ensures State() == old(State()).MakeCurrentBlocked()
    {
      if current.Some? {
        current := None;
      }
    }

    method ReEnque(id: Tid)
      modifies this
      ensures State() == old(State()).ReEnque(id)
    {
      readyQueue := readyQueue + [id];
    }

    // ---- threads and processes ----

    method Add(id: Tid, pid: Pid)
      modifies this
      ensures State() == old(State()).Add(id, pid)
    {
      tasks := tasks + {id};
      readyQueue := readyQueue + [id];
      if pid in relMap {
        relMap := relMap[pid := relMap[pid].AddThread(id)];
        tid2pid := tid2pid[id := pid];
      }
    }

    method AddProc(id: Pid, proc: Proc, parent: Pid)
      modifies this
      ensures State() == old(State()).AddProc(id, proc, parent)
    {
      procs := procs[id := proc];
      if parent in relMap {
        relMap := relMap[parent := relMap[parent].AddChild(id)];
      }
      relMap := relMap[id := NewRel(parent)];
    }

    /** Ends the running thread, and its process with it if it was the last one. */
    method MakeCurrentExited(exitCode: int)
      requires State().CanExit()
      modifies this
      ensures State() == old(State()).MakeCurrentExited(exitCode)
    {
      if current.Some? {
        var id := current.value;
        tasks := tasks - {id};
        var pid := tid2pid[id];
        tid2pid := tid2pid - {id};
        var flag := false;
        if pid in relMap {
          relMap := relMap[pid := relMap[pid].DelThread(id, exitCode)];
          flag := relMap[pid].threads == [];
        }
        current := None;
        if flag {
          DelProc(pid, exitCode);
        }
      }
    }

    /** Removes a process; every lookup on the way succeeds. */
    method DelProc(id: Pid, exitCode: int)
      requires State().CanDelProc(id)
      modifies this
      ensures State() == old(State()).DelProc(id, exitCode)
    {
      procs := procs - {id};
      var currentRel := relMap[id];
      relMap := relMap - {id};
      var parentPid, children := currentRel.parent, currentRel.children;
      if parentPid in relMap {
        relMap := relMap[parentPid := relMap[parentPid].DelChild(id, exitCode)];
      }
      ghost var start := relMap;
      assert children[0..] == children;
      for n := 0 to |children|
        invariant tasks == old(tasks) && readyQueue == old(readyQueue) && current == old(current)
                  && tid2pid == old(tid2pid)
        invariant procs == old(procs) - {id} && nextTid == old(nextTid) && nextPid == old(nextPid)
        invariant relMap.Keys == old(relMap).Keys - {id}
        invariant Reparent(relMap, children[n..]) == Reparent(start, children)
      {
        var i := children[n];
        assert i in relMap && 0 in relMap && children[n..][1..] == children[n + 1..];
        relMap := relMap[i := relMap[i].(parent := 0)];
        relMap := relMap[0 := relMap[0].AddChild(i)];
      }
    }

    method Wait(childPid: Pid) returns (r: Option<(Pid, int)>)
      requires State().HasCurrent()
      modifies this
      ensures (State(), r) == old(State()).WaitFor(childPid)
    {
      var pid := tid2pid[current.value];
      var (rel, found) := if childPid == USIZE_MAX then relMap[pid].WaitAnyChild() else relMap[pid].WaitChild(childPid);
      relMap := relMap[pid := rel];
      r := found;
    }

    method WaitTid(threadTid: Tid) returns (r: Option<int>)
      requires State().HasCurrent()
      modifies this
      ensures (State(), r) == old(State()).WaitForThread(threadTid)
    {
      var pid := tid2pid[current.value];
      var (rel, found) := relMap[pid].WaitThread(threadTid);
      relMap := relMap[pid := rel];
      r := found;
    }

    // ---- system calls ----

    method Fork() returns (ret: int)
      requires State().HasCurrent() && State().Legal(Trap.Fork)
      modifies this
      ensures (State(), ret) == old(State()).Syscall(Trap.Fork)
    {
      var parentPid := tid2pid[current.value];
      var pid, tid := nextPid, nextTid;
      nextPid, nextTid := nextPid + 1, nextTid + 1;
      AddProc(pid, NEW_PROC, parentPid);
      Add(tid, pid);
      ret := pid;
    }

    method ThreadCreate() returns (ret: int)
      requires State().HasCurrent()
      modifies this
      ensures (State(), ret) == old(State()).Syscall(Trap.ThreadCreate)
    {
      var pid := tid2pid[current.value];
      var tid := nextTid;
      nextTid := nextTid + 1;
      Add(tid, pid);
      ret := tid;
    }

    method SemaphoreCreate(resCount: nat) returns (ret: int)
      requires State().HasCurrent()
      modifies this
      ensures (State(), ret) == old(State()).Syscall(Trap.SemaphoreCreate(resCount))
    {
      var pid := tid2pid[current.value];
      var p := procs[pid];
      var id := FreeSlot(p.semaphores);
      var s := Some(SemaphoreState(resCount, []));
      if id < |p.semaphores| {
        procs := procs[pid := p.(semaphores := p.semaphores[id := s])];
      } else {
        procs := procs[pid := p.(semaphores := p.semaphores + [s])];
      }
      ret := id;
    }

    method SemaphoreUp(id: nat) returns (ret: int)
      requires State().HasCurrent() && State().Legal(Trap.SemaphoreUp(id))
      modifies this
      ensures (State(), ret) == old(State()).Syscall(Trap.SemaphoreUp(id))
    {
      var pid := tid2pid[current.value];
      var p := procs[pid];
      var s := p.semaphores[id].value;
      procs := procs[pid := p.(semaphores := p.semaphores[id := Some(s.Up())])];
      if s.Granted().Some? {
        ReEnque(s.Granted().value);
      }
      ret := 0;
    }

    method SemaphoreDown(id: nat) returns (ret: int)
      requires State().HasCurrent() && State().Legal(Trap.SemaphoreDown(id))
      modifies this
      ensures (State(), ret) == old(State()).Syscall(Trap.SemaphoreDown(id))
    {
      var tid := current.value;
      var pid := tid2pid[tid];
      var p := procs[pid];
      var s := p.semaphores[id].value;
      procs := procs[pid := p.(semaphores := p.semaphores[id := Some(s.Down(tid))])];
      ret := if s.count > 0 then 0 else -1;
    }

    method MutexCreate(blocking: bool) returns (ret: int)
      requires State().HasCurrent() && |State().CurrentProc().owners| == |State().CurrentProc().mutexes|
      modifies this
      ensures (State(), ret) == old(State()).Syscall(Trap.MutexCreate(blocking))
    {
      var newMutex := if blocking then Some(FREE) else None;
      var pid := tid2pid[current.value];
      var p := procs[pid];
      var id := FreeSlot(p.mutexes);
      if id < |p.mutexes| {
        procs := procs[pid := p.(mutexes := p.mutexes[id := newMutex], owners := p.owners[id := None])];
      } else {
        procs := procs[pid := p.(mutexes := p.mutexes + [newMutex], owners := p.owners + [None])];
      }
      ret := id;
    }

    method MutexUnlock(id: nat) returns (ret: int)
      requires State().HasCurrent() && State().Legal(Trap.MutexUnlock(id))
      modifies this
      ensures (State(), ret) == old(State()).Syscall(Trap.MutexUnlock(id))
    {
      var pid := tid2pid[current.value];
      var p := procs[pid];
      var m := p.mutexes[id].value;
      var waking := m.Granted();
      procs := procs[pid := p.(mutexes := p.mutexes[id := Some(m.Unlock())], owners := p.owners[id := waking])];
      if waking.Some? {
        ReEnque(waking.value);
      }
      ret := 0;
    }

    /** Takes the mutex or queues the caller; with the check on, a second lock by the owner is refused. */
    method MutexLock(id: nat) returns (ret: int)
      requires State().HasCurrent() && State().Legal(Trap.MutexLock(id))
      modifies this
      ensures (State(), ret) == old(State()).Syscall(Trap.MutexLock(id))
    {
      var tid := current.value;
      var pid := tid2pid[tid];
      var p := procs[pid];
      if p.detect {
        if p.owners[id] == Some(tid) {
          return DEADLOCK;
        }
      }
      var m := p.mutexes[id].value;
      p := p.(mutexes := p.mutexes[id := Some(m.Lock(tid))]);
      if m.locked {
        ret := -1;
      } else {
        p := p.(owners := p.owners[id := Some(tid)]);
        ret := 0;
      }
      procs := procs[pid := p];
    }

    method CondvarCreate() returns (ret: int)
      requires State().HasCurrent()
      modifies this
      ensures (State(), ret) == old(State()).Syscall(Trap.CondvarCreate)
    {
      var pid := tid2pid[current.value];
      var p := procs[pid];
      var id := FreeSlot(p.condvars);
      if id < |p.condvars| {
        procs := procs[pid := p.(condvars := p.condvars[id := Some([])])];
      } else {
        procs := procs[pid := p.(condvars := p.condvars + [Some([])])];
      }
      ret := id;
    }

    method CondvarSignal(id: nat) returns (ret: int)
      requires State().HasCurrent() && State().Legal(Trap.CondvarSignal(id))
      modifies this
      ensures (State(), ret) == old(State()).Syscall(Trap.CondvarSignal(id))
    {
      var pid := tid2pid[current.value];
      var p := procs[pid];
      var q := p.condvars[id].value;
      if q != [] {
        procs := procs[pid := p.(condvars := p.condvars[id := Some(q[1..])])];
        ReEnque(q[0]);
      }
      ret := 0;
    }

    method CondvarWait(id: nat, mutex: nat) returns (ret: int)
      requires State().HasCurrent() && State().Legal(Trap.CondvarWait(id, mutex))
      modifies this
      ensures (State(), ret) == old(State()).Syscall(Trap.CondvarWait(id, mutex))
    {
      var tid := current.value;
      var pid := tid2pid[tid];
      var p := procs[pid];
      var m := p.mutexes[mutex].value;
      var wakingTid := m.queue[0];
      var unlocked := m.Unlock();
      var flag := !unlocked.locked;
      procs := procs[pid := p.(mutexes := p.mutexes[mutex := Some(unlocked.Lock(tid))])];
      ReEnque(wakingTid);
      ret := if flag then 0 else -1;
    }

    method EnableDeadlockDetect(isEnable: int) returns (ret: int)
      requires State().HasCurrent()
      modifies this
      ensures (State(), ret) == old(State()).Syscall(Trap.EnableDeadlockDetect(isEnable))
    {
      var pid := tid2pid[current.value];
      match isEnable {
        case 1 =>
          procs := procs[pid := procs[pid].(detect := true)];
          ret := 0;
        case 0 =>
          procs := procs[pid := procs[pid].(detect := false)];
          ret := 0;
        case _ =>
          ret := -1;
      }
    }

    /** Runs the call of the running thread. */
    method Syscall(t: Trap) returns (ret: int)
      requires State().HasCurrent() && State().Legal(t)
      requires |State().CurrentProc().owners| == |State().CurrentProc().mutexes|
      modifies this
      ensures (State(), ret) == old(State()).Syscall(t)
    {
      match t {
        case Exit(code) => ret := code;
        case Unsupported => ret := 0;
        case Fault => ret := 0;
        case Other => ret := 0;
        case Fork => ret := Fork();
        case Exec =>
          nextPid, nextTid := nextPid + 1, nextTid + 1;
          ret := 0;
        case Wait(child) =>
          var found := Wait(child);
          ret := if found.None? then -1 else if found.value.0 == STILL_RUNNING then -2 else found.value.0;
        case ThreadCreate => ret := ThreadCreate();
        case WaitTid(tid) =>
          if tid == current.value {
            ret := -1;
          } else {
            var code := WaitTid(tid);
            ret := if code.None? then -1 else code.value;
          }
        case SemaphoreCreate(n) => ret := SemaphoreCreate(n);
        case SemaphoreUp(id) => ret := SemaphoreUp(id);
        case SemaphoreDown(id) => ret := SemaphoreDown(id);
        case MutexCreate(b) => ret := MutexCreate(b);
        case MutexLock(id) => ret := MutexLock(id);
        case MutexUnlock(id) => ret := MutexUnlock(id);
        case CondvarCreate => ret := CondvarCreate();
        case CondvarSignal(id) => ret := CondvarSignal(id);
        case CondvarWait(id, mutex) => ret := CondvarWait(id, mutex);
        case EnableDeadlockDetect(flag) => ret := EnableDeadlockDetect(flag);
      }
    }

    // ---- the main loop ----

    /** The trap of the thread that is running, up to the point where the next one is chosen. */
    method HandleTrap(t: Trap)
      requires State().HasCurrent() && State().Legal(t)
      requires |State().CurrentProc().owners| == |State().CurrentProc().mutexes|
      modifies this
      ensures State() == old(State()).Handle(t)
    {
      var ret := Syscall(t);
      if t.Exit? {
        MakeCurrentExited(ret);
      } else if t.Unsupported? {
        MakeCurrentExited(-2);
      } else if t.Fault? {
        MakeCurrentExited(-3);
      } else if (t.SemaphoreDown? || t.MutexLock? || t.CondvarWait?) && ret == -1 {
        MakeCurrentBlocked();
      } else {
        MakeCurrentSuspend();
      }
    }

    /** The loop of `main`, fed with the traps the threads take: it runs until no thread is ready (or the traps
        are used up), and no lookup in it fails. */
    method MainLoop(ts: seq<Trap>, ghost place: Places, ghost b: Books) returns (ghost place': Places, ghost b': Books)
      requires Good(State(), place, b) && AllowedLoop(State(), ts)
      modifies this
      ensures State() == Loop(old(State()), ts) && Good(State(), place', b')
    {
      place', b' := place, b;
      var n := 0;
      assert ts[0..] == ts;
      while n < |ts|
        invariant n <= |ts| && Good(State(), place', b') && AllowedLoop(State(), ts[n..])
        invariant Loop(State(), ts[n..]) == Loop(old(State()), ts)
      {
        ghost var k := State();
        if readyQueue == [] { break; }
        assert ts[n..][1..] == ts[n + 1..];
        ghost var place1 := FindNextLive(k, place');
        place', b' := StepKeeps(k, place', b', ts[n]);
        var found := FindNext();
        assert ProcessOk(State(), State().CurrentPid());
        HandleTrap(ts[n]);
        n := n + 1;
      }
    }
  }

  /** The loop over the traps, up to the moment when nobody is ready. */
  function Loop(k: Kernel, ts: seq<Trap>): Kernel
    decreases |ts|
  {
    if ts == [] || k.ready == [] then k else Loop(Step(k, ts[0]), ts[1..])
  }

  predicate AllowedLoop(k: Kernel, ts: seq<Trap>)
    decreases |ts|
  {
    ts == [] || k.ready == []
    || ((k.FindNext().HasCurrent() ==> Allowed(k.FindNext(), ts[0])) && AllowedLoop(Step(k, ts[0]), ts[1..]))
  }

  /** The first empty slot of a list, or its length. */
  method FreeSlot<T>(s: seq<Option<T>>) returns (k: nat)
    ensures k == FirstFree(s)
  {
    k := 0;
    assert s[0..] == s;
    while k < |s| && s[k].Some?
      invariant k <= |s| && FirstFree(s) == k + FirstFree(s[k..])
    {
      assert s[k..][1..] == s[k + 1..];
      k := k + 1;
    }
  }
}
