/** What the system calls do, seen from the queues: which thread goes from where to where, what the caller is told,
    and that everything else stays.
  */
module KernelMoves {
  import opened Options
  import opened Sync
  import opened ProcThreadRels
  import opened KernelStates
  import opened KernelInvariants

  /** Queues at other places are as they were, element by element. */
  ghost predicate OnlyAt(k: Kernel, k': Kernel, places: set<Place>) {
    forall pl {:trigger At(k', pl)} :: pl !in places ==> At(k', pl) == At(k, pl)
  }

  /** No thread or process comes or goes, and other processes' objects are as they were. */
  ghost predicate TablesKept(k: Kernel, k': Kernel)
    requires k.HasCurrent()
  {
    && k'.tasks == k.tasks && k'.tid2pid == k.tid2pid && k'.rel == k.rel && k'.procs.Keys == k.procs.Keys
    && forall pid :: pid in k.procs && pid != k.CurrentPid() ==> k'.procs[pid] == k.procs[pid]
  }

  /** The caller goes to the end of the ready queue and nothing else happens to the queues. */
  ghost predicate Yields(k: Kernel, k': Kernel) {
    k.current.Some? && At(k', Running) == [] && At(k', Ready) == At(k, Ready) + [k.current.value]
      && OnlyAt(k, k', {Running, Ready})
  }

  /** The caller goes to the end of a wait queue. */
  ghost predicate Sleeps(k: Kernel, k': Kernel, pl: Place) {
    k.current.Some? && At(k', Running) == [] && At(k', pl) == At(k, pl) + [k.current.value]
      && OnlyAt(k, k', {Running, pl})
  }

  /** The first thread of a wait queue becomes ready, ahead of the caller. */
  ghost predicate Wakes(k: Kernel, k': Kernel, pl: Place) {
    && k.current.Some? && At(k, pl) != [] && At(k', pl) == At(k, pl)[1..]
    && At(k', Running) == [] && At(k', Ready) == At(k, Ready) + [At(k, pl)[0], k.current.value]
    && OnlyAt(k, k', {Running, Ready, pl})
  }

  /** New contents for the objects of the running process that leave all queues alone, and the caller yields. */
  lemma Yielded(k: Kernel, p: Proc)
    requires k.HasCurrent() && OnlyAt(k, k.PutProc(p), {Running, Ready})
    ensures TablesKept(k, k.PutProc(p).MakeCurrentSuspend()) && Yields(k, k.PutProc(p).MakeCurrentSuspend())
  {
    var k' := k.PutProc(p).MakeCurrentSuspend();
    forall pl {:trigger At(k', pl)} | pl !in {Running, Ready}
      ensures At(k', pl) == At(k, pl)
    {
      assert At(k', pl) == At(k.PutProc(p), pl);
    }
  }

  /** The same with a first waiter that becomes ready. */
  lemma Woke(k: Kernel, p: Proc, from: Place)
    requires k.HasCurrent() && Waits(from).Some? && OnlyAt(k, k.PutProc(p), {Running, Ready, from})
    requires At(k, from) != [] && At(k.PutProc(p), from) == At(k, from)[1..]
    ensures var k' := k.PutProc(p).ReEnque(At(k, from)[0]).MakeCurrentSuspend();
            TablesKept(k, k') && Wakes(k, k', from)
  {
    var w := At(k, from)[0];
    var k' := k.PutProc(p).ReEnque(w).MakeCurrentSuspend();
    assert (At(k, Ready) + [w]) + [k.current.value] == At(k, Ready) + [w, k.current.value];
    forall pl {:trigger At(k', pl)} | pl !in {Running, Ready}
      ensures At(k', pl) == At(k.PutProc(p), pl)
    {
    }
  }

  lemma DownMoves(k: Kernel, id: nat)
    requires k.HasCurrent() && k.Legal(SemaphoreDown(id))
    ensures var k', ret, s := k.Handle(SemaphoreDown(id)), k.Syscall(SemaphoreDown(id)).1,
              k.CurrentProc().semaphores[id].value;
            && TablesKept(k, k')
            && if s.count > 0 then ret == 0 && Yields(k, k')
               else ret == -1 && Sleeps(k, k', OnSemaphore(k.CurrentPid(), id))
  {
    var p, s := k.CurrentProc(), k.CurrentProc().semaphores[id].value;
    var p' := p.(semaphores := p.semaphores[id := Some(s.Down(k.current.value))]);
    if s.count > 0 {
      assert k.Handle(SemaphoreDown(id)) == k.PutProc(p').MakeCurrentSuspend();
      Yielded(k, p');
    } else {
      DownSleeps(k, id);
    }
  }

  lemma DownSleeps(k: Kernel, id: nat)
    requires k.HasCurrent() && k.Legal(SemaphoreDown(id)) && k.CurrentProc().semaphores[id].value.count <= 0
    ensures TablesKept(k, k.Handle(SemaphoreDown(id))) && k.Syscall(SemaphoreDown(id)).1 == -1
    ensures Sleeps(k, k.Handle(SemaphoreDown(id)), OnSemaphore(k.CurrentPid(), id))
  {
    var p, s := k.CurrentProc(), k.CurrentProc().semaphores[id].value;
    var p' := p.(semaphores := p.semaphores[id := Some(s.Down(k.current.value))]);
    assert k.Handle(SemaphoreDown(id)) == k.PutProc(p').MakeCurrentBlocked();
  }

  lemma UpMoves(k: Kernel, id: nat)
    requires k.HasCurrent() && k.Legal(SemaphoreUp(id))
    ensures var k', pl := k.Handle(SemaphoreUp(id)), OnSemaphore(k.CurrentPid(), id);
            && TablesKept(k, k') && k.Syscall(SemaphoreUp(id)).1 == 0
            && if At(k, pl) == [] then Yields(k, k') else Wakes(k, k', pl)
  {
    var p, s, pl := k.CurrentProc(), k.CurrentProc().semaphores[id].value, OnSemaphore(k.CurrentPid(), id);
    var p' := p.(semaphores := p.semaphores[id := Some(s.Up())]);
    assert At(k, pl) == s.queue && k.Handle(SemaphoreUp(id)) == k.PutProc(p').Wake(s.Granted()).MakeCurrentSuspend();
    if s.queue == [] { Yielded(k, p'); } else { Woke(k, p', pl); }
  }

  /** A lock is refused to the owner where the check is on; otherwise it is granted at once or queued for. */
  lemma LockMoves(k: Kernel, id: nat)
    requires k.HasCurrent() && k.Legal(MutexLock(id))
    ensures var k', ret, p, c := k.Handle(MutexLock(id)), k.Syscall(MutexLock(id)).1, k.CurrentProc(), k.current.value;
            && TablesKept(k, k')
            && if p.detect && p.owners[id] == Some(c) then ret == DEADLOCK && Yields(k, k') && k'.procs == k.procs
               else if p.mutexes[id].value.locked then ret == -1 && Sleeps(k, k', OnMutex(k.CurrentPid(), id))
               else ret == 0 && Yields(k, k') && k'.procs[k.CurrentPid()].owners[id] == Some(c)
  {
    var p, c := k.CurrentProc(), k.current.value;
    var m := p.mutexes[id].value;
    if p.detect && p.owners[id] == Some(c) {
      assert k.Handle(MutexLock(id)) == k.MakeCurrentSuspend();
    } else if m.locked {
      LockSleeps(k, id);
    } else {
      LockYields(k, id);
    }
  }

  lemma LockSleeps(k: Kernel, id: nat)
    requires k.HasCurrent() && k.Legal(MutexLock(id)) && k.CurrentProc().mutexes[id].value.locked
    requires !(k.CurrentProc().detect && k.CurrentProc().owners[id] == Some(k.current.value))
    ensures TablesKept(k, k.Handle(MutexLock(id))) && k.Syscall(MutexLock(id)).1 == -1
    ensures Sleeps(k, k.Handle(MutexLock(id)), OnMutex(k.CurrentPid(), id))
  {
    var p, m := k.CurrentProc(), k.CurrentProc().mutexes[id].value;
    var p' := p.(mutexes := p.mutexes[id := Some(m.Lock(k.current.value))]);
    assert k.Handle(MutexLock(id)) == k.PutProc(p').MakeCurrentBlocked();
  }

  lemma LockYields(k: Kernel, id: nat)
    requires k.HasCurrent() && k.Legal(MutexLock(id)) && !k.CurrentProc().mutexes[id].value.locked
    requires !(k.CurrentProc().detect && k.CurrentProc().owners[id] == Some(k.current.value))
    ensures TablesKept(k, k.Handle(MutexLock(id))) && k.Syscall(MutexLock(id)).1 == 0
    ensures Yields(k, k.Handle(MutexLock(id)))
    ensures k.Handle(MutexLock(id)).procs[k.CurrentPid()].owners[id] == k.current
  {
    var p, m, c := k.CurrentProc(), k.CurrentProc().mutexes[id].value, k.current.value;
    var p' := p.(mutexes := p.mutexes[id := Some(m.Lock(c))], owners := p.owners[id := Some(c)]);
    assert k.Handle(MutexLock(id)) == k.PutProc(p').MakeCurrentSuspend();
    Yielded(k, p');
  }

  /** The first waiter gets the mutex and becomes its owner; without one the mutex is free. */
  lemma UnlockMoves(k: Kernel, id: nat)
    requires k.HasCurrent() && k.Legal(MutexUnlock(id))
    ensures var k', pl := k.Handle(MutexUnlock(id)), OnMutex(k.CurrentPid(), id);
            && TablesKept(k, k') && k.Syscall(MutexUnlock(id)).1 == 0
            && var p' := k'.procs[k.CurrentPid()];
               if At(k, pl) == [] then Yields(k, k') && !p'.mutexes[id].value.locked && p'.owners[id] == None
               else Wakes(k, k', pl) && p'.mutexes[id].value.locked && p'.owners[id] == Some(At(k, pl)[0])
  {
    var p, m, pl := k.CurrentProc(), k.CurrentProc().mutexes[id].value, OnMutex(k.CurrentPid(), id);
    var p' := p.(mutexes := p.mutexes[id := Some(m.Unlock())], owners := p.owners[id := m.Granted()]);
    assert At(k, pl) == m.queue && k.Handle(MutexUnlock(id)) == k.PutProc(p').Wake(m.Granted()).MakeCurrentSuspend();
    if m.queue == [] { Yielded(k, p'); } else { Woke(k, p', pl); }
  }

  /** Waiting for a condition rotates the queue of the mutex: its first waiter wakes, the caller goes to the end. */
  lemma WaitMoves(k: Kernel, id: nat, mutex: nat)
    requires k.HasCurrent() && k.Legal(CondvarWait(id, mutex))
    ensures var k', pl := k.Handle(CondvarWait(id, mutex)), OnMutex(k.CurrentPid(), mutex);
            && TablesKept(k, k') && k.Syscall(CondvarWait(id, mutex)).1 == -1
            && At(k, pl) != [] && At(k', pl) == At(k, pl)[1..] + [k.current.value]
            && At(k', Running) == [] && At(k', Ready) == At(k, Ready) + [At(k, pl)[0]]
            && OnlyAt(k, k', {Running, Ready, pl})
            && k'.procs[k.CurrentPid()].owners == k.CurrentProc().owners
  {
  }

  /** A signal wakes the first thread in the condition's own queue, if there is one. */
  lemma SignalMoves(k: Kernel, id: nat)
    requires k.HasCurrent() && k.Legal(CondvarSignal(id))
    ensures var k', pl := k.Handle(CondvarSignal(id)), OnCondvar(k.CurrentPid(), id);
            && TablesKept(k, k') && k.Syscall(CondvarSignal(id)).1 == 0
            && if At(k, pl) == [] then Yields(k, k') else Wakes(k, k', pl)
  {
    var p, q, pl := k.CurrentProc(), k.CurrentProc().condvars[id].value, OnCondvar(k.CurrentPid(), id);
    assert At(k, pl) == q;
    if q != [] { Woke(k, p.(condvars := p.condvars[id := Some(q[1..])]), pl); }
  }

  /** A new thread of the caller's process is ready ahead of the caller. */
  lemma ThreadCreateMoves(k: Kernel, place: Places)
    requires KernelOk(k, place) && k.HasCurrent()
    ensures var k', t, pid := k.Handle(ThreadCreate), k.nextTid, k.CurrentPid();
            && k.Syscall(ThreadCreate).1 == t && t !in k.tasks && k'.tasks == k.tasks + {t}
                 && k'.tid2pid == k.tid2pid[t := pid]
            && k'.rel[pid].threads == k.rel[pid].threads + [t] && k'.procs == k.procs
            && At(k', Running) == [] && At(k', Ready) == At(k, Ready) + [t, k.current.value]
                 && OnlyAt(k, k', {Running, Ready})
  {
    assert k.nextTid in k.tasks ==> ThreadOk(k, k.nextTid);
    assert (At(k, Ready) + [k.nextTid]) + [k.current.value] == At(k, Ready) + [k.nextTid, k.current.value];
  }

  /** Fork: a new process with one ready thread, listed with the caller's process; the caller is told its id. */
  lemma ForkMoves(k: Kernel, place: Places)
    requires KernelOk(k, place) && k.HasCurrent() && k.Legal(Fork)
    ensures var k', t, pid := k.Handle(Fork), k.nextTid, k.nextPid;
            && k.Syscall(Fork).1 == pid && pid !in k.rel && t !in k.tasks
            && k'.procs == k.procs[pid := NEW_PROC] && k'.rel.Keys == k.rel.Keys + {pid} && k'.rel[pid].threads == [t]
            && k'.rel[pid].parent == k.CurrentPid() && k'.rel[k.CurrentPid()].children
                 == k.rel[k.CurrentPid()].children + [pid]
            && At(k', Running) == [] && At(k', Ready) == At(k, Ready) + [t, k.current.value]
                 && OnlyAt(k, k', {Running, Ready})
  {
    assert k.nextTid in k.tasks ==> ThreadOk(k, k.nextTid);
    assert k.nextPid in k.rel ==> ProcessOk(k, k.nextPid);
    ForkShape(k);
    assert (At(k, Ready) + [k.nextTid]) + [k.current.value] == At(k, Ready) + [k.nextTid, k.current.value];
  }

  /** The check is on after 1 and off after 0; nothing happens for other arguments, and the caller is told so. With the
      check on, the next lock by an owner is refused. */
  lemma DetectMeans(k: Kernel, flag: int, id: nat)
    requires k.HasCurrent()
    ensures var (k1, ret) := k.Syscall(EnableDeadlockDetect(flag));
            && (ret == 0 <==> flag in {0, 1}) && (ret != 0 ==> ret == -1 && k1 == k)
            && (k1.Legal(MutexLock(id)) && k1.CurrentProc().owners[id] == k1.current ==>
                  (flag == 1 ==> k1.Syscall(MutexLock(id)) == (k1, DEADLOCK))
                  && (flag == 0 ==> k1.Syscall(MutexLock(id)).1 != DEADLOCK))
  {
  }
}
