/** One mutex or one semaphore through a run of the kernel: the traps of its process act on it as the events of module
    `Sync` do, so what is proved there about runs of events holds in every run from boot.
  */
module KernelLocks {
  import opened Options
  import opened Sync
  import opened ProcThreadRels
  import opened KernelStates
  import opened KernelInvariants
  import opened KernelRuns
  import opened KernelOwners

  predicate HasMutex(k: Kernel, pid: Pid, id: nat) {
    pid in k.procs && id < |k.procs[pid].mutexes| && k.procs[pid].mutexes[id].Some?
  }

  predicate HasSemaphore(k: Kernel, pid: Pid, id: nat) {
    pid in k.procs && id < |k.procs[pid].semaphores| && k.procs[pid].semaphores[id].Some?
  }

  /** What a trap does to mutex id of process pid. */
  function MutexEvents(k: Kernel, t: Trap, pid: Pid, id: nat): seq<MutexEvent>
    requires k.HasCurrent() && k.Legal(t)
  {
    if k.CurrentPid() != pid then []
    else if t == MutexLock(id) then if k.Syscall(t).1 == DEADLOCK then [] else [LockBy(k.current.value)]
    else if t == MutexUnlock(id) then [UnlockEvent]
    else if t.CondvarWait? && t.mutex == id then [UnlockEvent, LockBy(k.current.value)]
    else []
  }

  function SemaphoreEvents(k: Kernel, t: Trap, pid: Pid, id: nat): seq<SemaphoreEvent>
    requires k.HasCurrent()
  {
    if k.CurrentPid() != pid then []
    else if t == SemaphoreDown(id) then [DownBy(k.current.value)]
    else if t == SemaphoreUp(id) then [UpEvent]
    else []
  }

  /** The mutex after a trap is the mutex after its events. */
  predicate Follows(k: Kernel, t: Trap, pid: Pid, id: nat)
    requires k.HasCurrent() && k.Legal(t) && HasMutex(k, pid, id)
  {
    var m, es := k.procs[pid].mutexes[id].value, MutexEvents(k, t, pid, id);
    HasMutex(k.Handle(t), pid, id) && LegalMutexRun(m, es) && k.Handle(t).procs[pid].mutexes[id].value
      == MutexAfter(m, es)
  }

  lemma MutexTrapped(k: Kernel, place: Places, t: Trap, pid: Pid, id: nat)
    requires KernelOk(k, place) && k.HasCurrent() && k.Legal(t) && HasMutex(k, pid, id) && pid in k.Handle(t).procs
    ensures Follows(k, t, pid, id)
  {
    assert ProcessOk(k, k.CurrentPid());
    if t.MutexCreate? {
      OthersCreated(k, t, pid, id);
    } else if IsMutexTrap(t) {
      UsedMutex(k, t, pid, id);
    } else {
      Untouched(k, t, pid, id);
    }
  }

  lemma UsedMutex(k: Kernel, t: Trap, pid: Pid, id: nat)
    requires k.HasCurrent() && k.Legal(t) && HasMutex(k, pid, id) && IsMutexTrap(t) && !t.MutexCreate?
    ensures Follows(k, t, pid, id)
  {
    match t
    case MutexLock(i) => Locked(k, i, pid, id);
    case MutexUnlock(i) => Unlocked(k, i, pid, id);
    case CondvarWait(_, _) => Waited(k, t, pid, id);
  }

  lemma Untouched(k: Kernel, t: Trap, pid: Pid, id: nat)
    requires Members(k) && k.HasCurrent() && k.Legal(t) && !IsMutexTrap(t) && HasMutex(k, pid, id)
             && pid in k.Handle(t).procs
    ensures Follows(k, t, pid, id)
  {
    MutexesKept(k, t, pid);
    NoEvents(k, t, pid, id);
    SameThere(k, k.Handle(t), pid, id);
  }

  lemma NoEvents(k: Kernel, t: Trap, pid: Pid, id: nat)
    requires k.HasCurrent() && k.Legal(t) && !IsMutexTrap(t)
    ensures MutexEvents(k, t, pid, id) == []
  {
  }

  lemma SameThere(k: Kernel, k': Kernel, pid: Pid, id: nat)
    requires SameMutexes(k, k', pid) && HasMutex(k, pid, id)
    ensures HasMutex(k', pid, id) && k'.procs[pid].mutexes[id] == k.procs[pid].mutexes[id]
  {
  }

  lemma OthersCreated(k: Kernel, t: Trap, pid: Pid, id: nat)
    requires k.HasCurrent() && k.Legal(t) && t.MutexCreate? && HasMutex(k, pid, id)
             && |k.CurrentProc().owners| == |k.CurrentProc().mutexes|
    ensures Follows(k, t, pid, id)
  {
    CreateEffect(k, t);
  }

  lemma Locked(k: Kernel, i: nat, pid: Pid, id: nat)
    requires k.HasCurrent() && k.Legal(MutexLock(i)) && HasMutex(k, pid, id)
    ensures Follows(k, MutexLock(i), pid, id)
  {
    LockEffect(k, i);
    OneLock(k.procs[pid].mutexes[id].value, k.current.value);
  }

  lemma Waited(k: Kernel, t: Trap, pid: Pid, id: nat)
    requires k.HasCurrent() && k.Legal(t) && t.CondvarWait? && HasMutex(k, pid, id)
    ensures Follows(k, t, pid, id)
  {
    CondvarEffect(k, t.id, t.mutex);
    WaitEvents(k, t, pid, id);
  }

  lemma Unlocked(k: Kernel, i: nat, pid: Pid, id: nat)
    requires k.HasCurrent() && k.Legal(MutexUnlock(i)) && HasMutex(k, pid, id)
    ensures Follows(k, MutexUnlock(i), pid, id)
  {
    UnlockEffect(k, i);
    if k.CurrentPid() == pid && i == id { OneUnlock(k.procs[pid].mutexes[id].value); }
  }

  lemma WaitEvents(k: Kernel, t: Trap, pid: Pid, id: nat)
    requires k.HasCurrent() && k.Legal(t) && t.CondvarWait? && HasMutex(k, pid, id)
    ensures var m, es := k.procs[pid].mutexes[id].value, MutexEvents(k, t, pid, id);
            if k.CurrentPid() == pid && t.mutex == id
            then LegalMutexRun(m, es) && MutexAfter(m, es) == m.Unlock().Lock(k.current.value)
            else es == []
  {
    var c, m := k.current.value, k.procs[pid].mutexes[id].value;
    assert [UnlockEvent, LockBy(c)][1..] == [LockBy(c)] && [LockBy(c)][1..] == [];
    OneLock(m.Unlock(), c);
  }

  lemma OneLock(m: MutexState, c: Tid)
    ensures LegalMutexRun(m, [LockBy(c)]) && MutexAfter(m, [LockBy(c)]) == m.Lock(c)
  {
    assert [LockBy(c)][1..] == [];
  }

  lemma OneUnlock(m: MutexState)
    requires m.locked
    ensures LegalMutexRun(m, [UnlockEvent]) && MutexAfter(m, [UnlockEvent]) == m.Unlock()
  {
    assert [UnlockEvent][1..] == [];
  }

  /** Which traps touch semaphores. */
  lemma SemaphoreTrapped(k: Kernel, t: Trap, pid: Pid, id: nat)
    requires Members(k) && k.HasCurrent() && k.Legal(t) && HasSemaphore(k, pid, id) && pid in k.Handle(t).procs
    ensures HasSemaphore(k.Handle(t), pid, id)
    ensures var s, es := k.procs[pid].semaphores[id].value, SemaphoreEvents(k, t, pid, id);
            k.Handle(t).procs[pid].semaphores[id].value == SemaphoreAfter(s, es)
  {
    if t.SemaphoreDown? || t.SemaphoreUp? || t.SemaphoreCreate? {
      SemaphoreEffect(k, t, pid, id);
    } else {
      SemaphoresKept(k, t, pid);
    }
  }

  lemma SemaphoreEffect(k: Kernel, t: Trap, pid: Pid, id: nat)
    requires k.HasCurrent() && k.Legal(t) && HasSemaphore(k, pid, id)
             && (t.SemaphoreDown? || t.SemaphoreUp? || t.SemaphoreCreate?)
    ensures HasSemaphore(k.Handle(t), pid, id)
    ensures var s, es := k.procs[pid].semaphores[id].value, SemaphoreEvents(k, t, pid, id);
            k.Handle(t).procs[pid].semaphores[id].value == SemaphoreAfter(s, es)
  {
    if t.SemaphoreDown? { assert [DownBy(k.current.value)][1..] == []; } else { assert [UpEvent][1..] == []; }
  }

  lemma SemaphoresKept(k: Kernel, t: Trap, pid: Pid)
    requires Members(k) && k.HasCurrent() && k.Legal(t) && !t.SemaphoreDown? && !t.SemaphoreUp? && !t.SemaphoreCreate?
    requires pid in k.procs && pid in k.Handle(t).procs
    ensures k.Handle(t).procs[pid].semaphores == k.procs[pid].semaphores
  {
    if Ends(t) {
      ExitShape(k, EndCode(t));
    } else if t.Fork? {
      assert k.nextPid in k.rel ==> ProcessOk(k, k.nextPid);
      ForkShape(k);
    }
  }

  // ---- runs ----

  function MutexRunEvents(k: Kernel, ts: seq<Trap>, pid: Pid, id: nat): seq<MutexEvent>
    decreases |ts|
  {
    if ts == [] then []
    else (if k.FindNext().HasCurrent() && k.FindNext().Legal(ts[0]) then MutexEvents(k.FindNext(), ts[0], pid, id)
      else [])
         + MutexRunEvents(Step(k, ts[0]), ts[1..], pid, id)
  }

  function SemaphoreRunEvents(k: Kernel, ts: seq<Trap>, pid: Pid, id: nat): seq<SemaphoreEvent>
    decreases |ts|
  {
    if ts == [] then []
    else (if k.FindNext().HasCurrent() then SemaphoreEvents(k.FindNext(), ts[0], pid, id) else [])
         + SemaphoreRunEvents(Step(k, ts[0]), ts[1..], pid, id)
  }

  /** A process that is gone does not come back. */
  lemma {:induction false} GoneForGood(k: Kernel, place: Places, b: Books, ts: seq<Trap>, pid: Pid)
    requires Good(k, place, b) && AllowedRun(k, ts) && pid < k.nextPid && pid !in k.procs
    ensures pid !in After(k, ts).procs
    decreases |ts|
  {
    if ts != [] {
      var place1 := FetchKeeps(k, place, b);
      var place', b' := StepKeeps(k, place, b, ts[0]);
      StaysGone(k.FindNext(), ts[0], pid);
      GoneForGood(Step(k, ts[0]), place', b', ts[1..], pid);
    }
  }

  lemma StaysGone(k: Kernel, t: Trap, pid: Pid)
    requires Members(k) && k.HasCurrent() && k.Legal(t) && pid < k.nextPid && pid !in k.procs
    ensures pid < k.Handle(t).nextPid && pid !in k.Handle(t).procs
  {
    PidsGrow(k, t);
    if pid in k.Handle(t).procs {
      assert ProcessOk(k, k.CurrentPid());
      if !IsMutexTrap(t) { MutexesKept(k, t, pid); }
    }
  }

  lemma {:induction false} MutexSplit(m: MutexState, es: seq<MutexEvent>, fs: seq<MutexEvent>)
    requires LegalMutexRun(m, es) && LegalMutexRun(MutexAfter(m, es), fs)
    ensures LegalMutexRun(m, es + fs) && MutexAfter(m, es + fs) == MutexAfter(MutexAfter(m, es), fs)
    decreases |es|
  {
    if es == [] {
      assert es + fs == fs;
    } else {
      assert (es + fs)[1..] == es[1..] + fs;
      MutexSplit(MutexNext(m, es[0]), es[1..], fs);
    }
  }

  lemma {:induction false} SemaphoreSplit(s: SemaphoreState, es: seq<SemaphoreEvent>, fs: seq<SemaphoreEvent>)
    ensures SemaphoreAfter(s, es + fs) == SemaphoreAfter(SemaphoreAfter(s, es), fs)
    decreases |es|
  {
    if es == [] {
      assert es + fs == fs;
    } else {
      assert (es + fs)[1..] == es[1..] + fs;
      SemaphoreSplit(SemaphoreNext(s, es[0]), es[1..], fs);
    }
  }

  lemma {:induction false} MutexRun(k: Kernel, place: Places, b: Books, ts: seq<Trap>, pid: Pid, id: nat)
    requires Good(k, place, b) && AllowedRun(k, ts) && HasMutex(k, pid, id) && pid in After(k, ts).procs
    ensures HasMutex(After(k, ts), pid, id)
    ensures var m, es := k.procs[pid].mutexes[id].value, MutexRunEvents(k, ts, pid, id);
            LegalMutexRun(m, es) && After(k, ts).procs[pid].mutexes[id].value == MutexAfter(m, es)
    decreases |ts|
  {
    if ts != [] {
      var k1, k' := k.FindNext(), Step(k, ts[0]);
      var place1 := FetchKeeps(k, place, b);
      var place', b' := StepKeeps(k, place, b, ts[0]);
      StillRunning(k, place, b, place', b', ts, pid);
      MutexTrapped(k1, place1, ts[0], pid, id);
      MutexRun(k', place', b', ts[1..], pid, id);
      MutexSplit(k.procs[pid].mutexes[id].value, MutexEvents(k1, ts[0], pid, id), MutexRunEvents(k', ts[1..], pid, id));
    }
  }

  /** A process that is there at the end is there after the first round. */
  lemma StillRunning(k: Kernel, place: Places, b: Books, place': Places, b': Books, ts: seq<Trap>, pid: Pid)
    requires Good(k, place, b) && ts != [] && AllowedRun(k, ts) && Good(Step(k, ts[0]), place', b')
    requires k.FindNext().HasCurrent() && k.FindNext().Legal(ts[0])
    requires pid in k.procs && pid in After(k, ts).procs
    ensures pid in Step(k, ts[0]).procs
  {
    assert ProcessOk(k, pid);
    var place1 := FetchKeeps(k, place, b);
    PidsGrow(k.FindNext(), ts[0]);
    if pid !in Step(k, ts[0]).procs { GoneForGood(Step(k, ts[0]), place', b', ts[1..], pid); }
  }

  lemma {:induction false} SemaphoreRun(k: Kernel, place: Places, b: Books, ts: seq<Trap>, pid: Pid, id: nat)
    requires Good(k, place, b) && AllowedRun(k, ts) && HasSemaphore(k, pid, id) && pid in After(k, ts).procs
    ensures HasSemaphore(After(k, ts), pid, id)
    ensures var s, es := k.procs[pid].semaphores[id].value, SemaphoreRunEvents(k, ts, pid, id);
            After(k, ts).procs[pid].semaphores[id].value == SemaphoreAfter(s, es)
    decreases |ts|
  {
    if ts != [] {
      var k1, k' := k.FindNext(), Step(k, ts[0]);
      var place1 := FetchKeeps(k, place, b);
      var place', b' := StepKeeps(k, place, b, ts[0]);
      StillRunning(k, place, b, place', b', ts, pid);
      SemaphoreTrapped(k1, ts[0], pid, id);
      SemaphoreRun(k', place', b', ts[1..], pid, id);
      SemaphoreSplit(k.procs[pid].semaphores[id].value, SemaphoreEvents(k1, ts[0], pid, id),
        SemaphoreRunEvents(k', ts[1..], pid, id));
    }
  }

  /** From any state reached from boot on, in every run: the threads that get a mutex, followed by those that wait for
      it at the end, are those that waited at the beginning, followed by those that asked since, in that order. */
  lemma MutexInRun(k: Kernel, ts: seq<Trap>, pid: Pid, id: nat)
    requires Reached(k) && AllowedRun(k, ts) && HasMutex(k, pid, id) && pid in After(k, ts).procs
    ensures HasMutex(After(k, ts), pid, id)
    ensures var m, m', es := k.procs[pid].mutexes[id].value, After(k, ts).procs[pid].mutexes[id].value,
              MutexRunEvents(k, ts, pid, id);
            Owners(m, es) + m'.queue == m.queue + LockRequests(es)
  {
    var place, b := ReachedGood(k);
    assert ProcessOk(k, pid);
    MutexRun(k, place, b, ts, pid, id);
    MutexFifo(k.procs[pid].mutexes[id].value, MutexRunEvents(k, ts, pid, id));
  }

  /** And the thread at position j of the queue gets the mutex at exactly the (j+1)-th unlock. */
  lemma HandOffInRun(k: Kernel, ts: seq<Trap>, pid: Pid, id: nat, j: nat)
    requires Reached(k) && AllowedRun(k, ts) && HasMutex(k, pid, id) && pid in After(k, ts).procs
    requires j < |k.procs[pid].mutexes[id].value.queue|
    ensures HasMutex(After(k, ts), pid, id)
    ensures var m, m', es := k.procs[pid].mutexes[id].value, After(k, ts).procs[pid].mutexes[id].value,
              MutexRunEvents(k, ts, pid, id);
            if Unlocks(es) <= j then j - Unlocks(es) < |m'.queue| && m'.queue[j - Unlocks(es)] == m.queue[j]
            else j < |Owners(m, es)| && Owners(m, es)[j] == m.queue[j]
  {
    var place, b := ReachedGood(k);
    assert ProcessOk(k, pid);
    MutexRun(k, place, b, ts, pid, id);
    MutexHandOff(k.procs[pid].mutexes[id].value, MutexRunEvents(k, ts, pid, id), j);
  }

  /** The same for a semaphore: units are conserved and granted in the order of the requests. */
  lemma SemaphoreInRun(k: Kernel, ts: seq<Trap>, pid: Pid, id: nat)
    requires Reached(k) && AllowedRun(k, ts) && HasSemaphore(k, pid, id) && pid in After(k, ts).procs
    ensures HasSemaphore(After(k, ts), pid, id)
    ensures var s, s', es :=
              k.procs[pid].semaphores[id].value, After(k, ts).procs[pid].semaphores[id].value,
                SemaphoreRunEvents(k, ts, pid, id);
            && s'.count == s.count + Ups(es) - |Requests(es)| && |s'.queue| == (if s'.count < 0 then -s'.count else 0)
            && Acquired(s, es) + s'.queue == s.queue + Requests(es)
  {
    var place, b := ReachedGood(k);
    assert ProcessOk(k, pid);
    SemaphoreRun(k, place, b, ts, pid, id);
    SemaphoreFifo(k.procs[pid].semaphores[id].value, SemaphoreRunEvents(k, ts, pid, id));
  }

  /** A new semaphore starts with the count asked for and nobody waiting, a new mutex free. */
  lemma Created(k: Kernel, n: nat)
    requires k.HasCurrent() && |k.CurrentProc().owners| == |k.CurrentProc().mutexes|
    ensures var k1, id := k.Handle(SemaphoreCreate(n)), k.Syscall(SemaphoreCreate(n)).1;
            id >= 0 && HasSemaphore(k1, k.CurrentPid(), id) && k1.procs[k.CurrentPid()].semaphores[id].value
              == SemaphoreState(n, [])
    ensures var k2, id := k.Handle(MutexCreate(true)), k.Syscall(MutexCreate(true)).1;
            id >= 0 && HasMutex(k2, k.CurrentPid(), id) && k2.procs[k.CurrentPid()].mutexes[id].value == FREE
  {
  }
}
