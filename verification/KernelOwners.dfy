/** What the field `mutex_owners` means, and what the relock check achieves. */
module KernelOwners {
  import opened Options
  import opened Sync
  import opened ProcThreadRels
  import opened KernelStates
  import opened KernelInvariants
  import opened KernelRuns
  import opened Sequences

  // ---- holding a mutex, as a thread sees it ----

  /** Thread tid has got mutex id of process pid and has not given it back. */
  datatype Holding = Holding(pid: Pid, id: nat, tid: Tid)

  type Holdings = iset<Holding>

  /** A thread gets a mutex when its own `mutex_lock` returns 0, or when it is taken out of the mutex's queue. */
  predicate Acquires(k: Kernel, t: Trap, x: Holding)
    requires k.HasCurrent() && k.Legal(t)
  {
    || (t == MutexLock(x.id) && Mine(k, x) && k.Syscall(t).1 == 0)
    || (x.tid in At(k, OnMutex(x.pid, x.id)) && x.tid !in At(k.Handle(t), OnMutex(x.pid, x.id)))
  }

  /** It gives the mutex back by its own `mutex_unlock`, or by waiting for a condition. */
  predicate Releases(k: Kernel, t: Trap, x: Holding)
    requires k.HasCurrent()
  {
    Mine(k, x) && (t == MutexUnlock(x.id) || (t.CondvarWait? && t.mutex == x.id))
  }

  predicate Mine(k: Kernel, x: Holding)
    requires k.HasCurrent()
  {
    x.pid == k.CurrentPid() && x.tid == k.current.value
  }

  ghost function NextHoldings(k: Kernel, t: Trap, h: Holdings): Holdings
    requires k.HasCurrent() && k.Legal(t)
  {
    iset x: Holding | Acquires(k, t, x) || (x in h && !Releases(k, t, x))
  }

  /** The owner fields of one process name exactly the threads that hold its mutexes: at most one each. */
  ghost predicate ProcOwners(p: Proc, pid: Pid, h: Holdings) {
    forall id: nat, tid: Tid {:trigger Holding(pid, id, tid)} ::
      Holding(pid, id, tid) in h <==> id < |p.owners| && p.owners[id] == Some(tid)
  }

  ghost predicate OwnersRight(k: Kernel, h: Holdings) {
    && (forall pid {:trigger ProcOwners(k.procs[pid], pid, h)} :: pid in k.procs ==> ProcOwners(k.procs[pid], pid, h))
    && forall x :: x in h ==> x.pid < k.nextPid
  }

  /** Only a thread that holds a mutex unlocks it. */
  ghost predicate HolderUnlocks(k: Kernel, t: Trap, h: Holdings)
    requires k.HasCurrent()
  {
    t.MutexUnlock? ==> Holding(k.CurrentPid(), t.id, k.current.value) in h
  }

  // ---- which traps touch mutexes ----

  predicate IsMutexTrap(t: Trap) { t.MutexCreate? || t.MutexLock? || t.MutexUnlock? || t.CondvarWait? }

  /** The mutexes of a process that was there are as they were; a new process has none. */
  predicate SameMutexes(k: Kernel, k': Kernel, pid: Pid) {
    pid in k'.procs
    && if pid in k.procs then k'.procs[pid].mutexes == k.procs[pid].mutexes
         && k'.procs[pid].owners == k.procs[pid].owners
       else pid == k.nextPid && k'.procs[pid] == NEW_PROC
  }

  lemma MutexesKept(k: Kernel, t: Trap, pid: Pid)
    requires Members(k) && k.HasCurrent() && k.Legal(t) && !IsMutexTrap(t) && pid in k.Handle(t).procs
    ensures SameMutexes(k, k.Handle(t), pid)
    ensures pid in k.procs && k.Handle(t).procs[pid].detect ==>
              k.procs[pid].detect || (pid == k.CurrentPid() && t == EnableDeadlockDetect(1))
  {
    if Ends(t) {
      ExitShape(k, EndCode(t));
    } else if t.Fork? {
      assert k.nextPid in k.rel ==> ProcessOk(k, k.nextPid);
      ForkShape(k);
    }
  }

  /** A trap that touches no mutex lets nobody out of the queue of a mutex. */
  lemma NoneWoken(k: Kernel, place: Places, t: Trap, pid: Pid, id: nat)
    requires KernelOk(k, place) && k.HasCurrent() && k.Legal(t) && !IsMutexTrap(t)
    ensures At(k.Handle(t), OnMutex(pid, id)) == At(k, OnMutex(pid, id))
  {
    if pid in k.Handle(t).procs {
      MutexesKept(k, t, pid);
      assert k.nextPid in k.rel ==> ProcessOk(k, k.nextPid);
    } else if pid in k.procs {
      Vanished(k, place, t, pid, id);
    }
  }

  /** A process vanishes with its last thread, when nobody is left to wait. */
  lemma Vanished(k: Kernel, place: Places, t: Trap, pid: Pid, id: nat)
    requires KernelOk(k, place) && k.HasCurrent() && k.Legal(t) && !IsMutexTrap(t) && pid in k.procs
             && pid !in k.Handle(t).procs
    ensures At(k, OnMutex(pid, id)) == []
  {
    if Ends(t) {
      ExitShape(k, EndCode(t));
      NobodyWaits(k, place, OnMutex(pid, id));
    } else if t.Fork? {
      assert k.nextPid in k.rel ==> ProcessOk(k, k.nextPid);
      ForkShape(k);
    }
  }

  // ---- the owner fields ----

  /** In runs in which only holders unlock and nobody calls `condvar_wait`, the owner fields are always right. */
  lemma OwnersKept(k: Kernel, place: Places, h: Holdings, t: Trap)
    requires KernelOk(k, place) && k.HasCurrent() && k.Legal(t) && OwnersRight(k, h) && !t.CondvarWait?
             && HolderUnlocks(k, t, h)
    ensures OwnersRight(k.Handle(t), NextHoldings(k, t, h))
  {
    if t.MutexCreate? {
      OwnersCreate(k, place, h, t);
    } else if t.MutexLock? {
      OwnersLock(k, place, h, t.id);
    } else if t.MutexUnlock? {
      OwnersAfterUnlock(k, place, h, t.id);
    } else {
      OwnersQuiet(k, place, h, t);
    }
  }

  lemma OwnersQuiet(k: Kernel, place: Places, h: Holdings, t: Trap)
    requires KernelOk(k, place) && k.HasCurrent() && k.Legal(t) && OwnersRight(k, h) && !IsMutexTrap(t)
    ensures OwnersRight(k.Handle(t), NextHoldings(k, t, h))
  {
    var k', h' := k.Handle(t), NextHoldings(k, t, h);
    forall x
      ensures x in h' <==> x in h
    {
      NoneWoken(k, place, t, x.pid, x.id);
    }
    PidsGrow(k, t);
    forall pid | pid in k'.procs
      ensures ProcOwners(k'.procs[pid], pid, h')
    {
      MutexesKept(k, t, pid);
      if pid in k.procs { assert ProcOwners(k.procs[pid], pid, h); }
    }
  }

  lemma PidsGrow(k: Kernel, t: Trap)
    requires Members(k) && k.HasCurrent() && k.Legal(t)
    ensures k.nextPid <= k.Handle(t).nextPid
  {
    if Ends(t) { ExitShape(k, EndCode(t)); }
  }

  lemma CreateEffect(k: Kernel, t: Trap)
    requires k.HasCurrent() && k.Legal(t) && t.MutexCreate? && |k.CurrentProc().owners| == |k.CurrentProc().mutexes|
    ensures var k', me, p := k.Handle(t), k.CurrentPid(), k.CurrentProc();
            var id := FirstFree(p.mutexes);
            && me in k'.procs && k'.procs == k.procs[me := k'.procs[me]] && k'.procs[me].detect == p.detect
                 && k'.nextPid == k.nextPid
            && k'.procs[me].mutexes == Fill(p.mutexes, id, if t.blocking then Some(FREE) else None)
            && k'.procs[me].owners == Fill(p.owners, id, None)
  {
  }

  lemma LockEffect(k: Kernel, id: nat)
    requires k.HasCurrent() && k.Legal(MutexLock(id))
    ensures var k', me, p, c := k.Handle(MutexLock(id)), k.CurrentPid(), k.CurrentProc(), k.current.value;
            var m := p.mutexes[id].value;
            && me in k'.procs && k'.procs == k.procs[me := k'.procs[me]] && k'.procs[me].detect == p.detect
                 && k'.nextPid == k.nextPid
            && if p.detect && p.owners[id] == Some(c) then k'.procs[me] == p && k.Syscall(MutexLock(id)).1 == DEADLOCK
               else k'.procs[me].mutexes == p.mutexes[id := Some(m.Lock(c))]
                    && k'.procs[me].owners == (if m.locked then p.owners else p.owners[id := Some(c)])
                    && k.Syscall(MutexLock(id)).1 == if m.locked then -1 else 0
  {
  }

  lemma UnlockEffect(k: Kernel, id: nat)
    requires k.HasCurrent() && k.Legal(MutexUnlock(id))
    ensures var k', me, p := k.Handle(MutexUnlock(id)), k.CurrentPid(), k.CurrentProc();
            var m := p.mutexes[id].value;
            && me in k'.procs && k'.procs == k.procs[me := k'.procs[me]] && k'.procs[me].detect == p.detect
                 && k'.nextPid == k.nextPid
            && k'.procs[me].mutexes == p.mutexes[id := Some(m.Unlock())]
                 && k'.procs[me].owners == p.owners[id := m.Granted()]
  {
  }

  /** The queue of a mutex of the running process, and what the invariant says about it. */
  lemma OwnQueue(k: Kernel, place: Places, id: nat)
    requires KernelOk(k, place) && k.HasCurrent() && id < |k.CurrentProc().mutexes| && k.CurrentProc().mutexes[id].Some?
    ensures var p := k.CurrentProc();
            var m := p.mutexes[id].value;
            && At(k, OnMutex(k.CurrentPid(), id)) == m.queue && NoDup(m.queue) && k.current.value !in m.queue
            && m.Valid() && id < |p.owners| && (p.owners[id].Some? <==> m.locked)
  {
    assert QueueOk(k, place, OnMutex(k.CurrentPid(), id)) && QueueOk(k, place, Running);
    assert k.current.value in At(k, Running);
    assert ProcessOk(k, k.CurrentPid());
  }

  lemma OwnersCreate(k: Kernel, place: Places, h: Holdings, t: Trap)
    requires KernelOk(k, place) && k.HasCurrent() && k.Legal(t) && OwnersRight(k, h) && t.MutexCreate?
    ensures OwnersRight(k.Handle(t), NextHoldings(k, t, h))
  {
    var k', h', me := k.Handle(t), NextHoldings(k, t, h), k.CurrentPid();
    assert ProcessOk(k, me) && ProcOwners(k.procs[me], me, h);
    CreateEffect(k, t);
    forall x: Holding
      ensures x in h' <==> x in h
    {
      CreateQueue(k, t, x.pid, x.id);
    }
    forall pid | pid in k'.procs
      ensures ProcOwners(k'.procs[pid], pid, h')
    {
      assert ProcOwners(k.procs[pid], pid, h);
    }
  }

  /** A new mutex has an empty queue, like the free slot before. */
  lemma CreateQueue(k: Kernel, t: Trap, pid: Pid, id: nat)
    requires k.HasCurrent() && k.Legal(t) && t.MutexCreate? && |k.CurrentProc().owners| == |k.CurrentProc().mutexes|
    ensures At(k.Handle(t), OnMutex(pid, id)) == At(k, OnMutex(pid, id))
  {
    CreateEffect(k, t);
  }

  lemma OwnersLock(k: Kernel, place: Places, h: Holdings, id: nat)
    requires KernelOk(k, place) && k.HasCurrent() && k.Legal(MutexLock(id)) && OwnersRight(k, h)
    ensures OwnersRight(k.Handle(MutexLock(id)), NextHoldings(k, MutexLock(id), h))
  {
    var t := MutexLock(id);
    var k', h', me := k.Handle(t), NextHoldings(k, t, h), k.CurrentPid();
    assert ProcOwners(k.procs[me], me, h);
    OwnQueue(k, place, id);
    LockEffect(k, id);
    assert ProcessOk(k, me);
    var mine := Holding(me, id, k.current.value);
    forall x: Holding
      ensures x in h' <==> x in h || (x == mine && k.Syscall(t).1 == 0)
    {
      LockQueue(k, place, id, x);
    }
    forall pid | pid in k'.procs
      ensures ProcOwners(k'.procs[pid], pid, h')
    {
      assert ProcOwners(k.procs[pid], pid, h);
    }
  }

  /** Locking takes nobody out of a queue. */
  lemma LockQueue(k: Kernel, place: Places, id: nat, x: Holding)
    requires KernelOk(k, place) && k.HasCurrent() && k.Legal(MutexLock(id))
    ensures x.tid in At(k, OnMutex(x.pid, x.id)) ==> x.tid in At(k.Handle(MutexLock(id)), OnMutex(x.pid, x.id))
  {
    LockEffect(k, id);
  }

  /** After an unlock the fields are right if and only if it came from the holder, or if the first waiter is the owner,
      who was waiting for itself. */
  lemma OwnersAfterUnlock(k: Kernel, place: Places, h: Holdings, id: nat)
    requires KernelOk(k, place) && k.HasCurrent() && k.Legal(MutexUnlock(id)) && OwnersRight(k, h)
    ensures OwnersRight(k.Handle(MutexUnlock(id)), NextHoldings(k, MutexUnlock(id), h)) <==>
              || HolderUnlocks(k, MutexUnlock(id), h)
              || k.CurrentProc().owners[id] == k.CurrentProc().mutexes[id].value.Granted()
  {
    var t := MutexUnlock(id);
    var k', h', me, p := k.Handle(t), NextHoldings(k, t, h), k.CurrentPid(), k.CurrentProc();
    var w := p.mutexes[id].value.Granted();
    assert ProcOwners(k.procs[me], me, h);
    OwnQueue(k, place, id);
    UnlockEffect(k, id);
    forall x: Holding
      ensures x in h' <==>
              (x.pid == me && x.id == id && w == Some(x.tid)) || (x in h && x != Holding(me, id, k.current.value))
    {
      UnlockQueue(k, place, id, x);
    }
    assert p.owners[id].Some? && Holding(me, id, p.owners[id].value) in h;
    if HolderUnlocks(k, t, h) || p.owners[id] == w {
      forall pid | pid in k'.procs
        ensures ProcOwners(k'.procs[pid], pid, h')
      {
        assert ProcOwners(k.procs[pid], pid, h);
      }
    } else {
      assert Holding(me, id, p.owners[id].value) in h';
      assert !ProcOwners(k'.procs[me], me, h');
    }
  }

  /** Unlocking takes the first waiter out of the queue of its mutex, and nobody else. */
  lemma UnlockQueue(k: Kernel, place: Places, id: nat, x: Holding)
    requires KernelOk(k, place) && k.HasCurrent() && k.Legal(MutexUnlock(id))
    ensures var w := k.CurrentProc().mutexes[id].value.Granted();
            x.tid in At(k, OnMutex(x.pid, x.id)) && x.tid !in At(k.Handle(MutexUnlock(id)), OnMutex(x.pid, x.id))
            <==> x.pid == k.CurrentPid() && x.id == id && w == Some(x.tid)
  {
    OwnQueue(k, place, id);
    UnlockEffect(k, id);
    var m := k.CurrentProc().mutexes[id].value;
    if m.queue != [] { FirstOut(m.queue); }
  }

  lemma FirstOut(q: seq<Tid>)
    requires NoDup(q) && q != []
    ensures forall u :: u in q[1..] <==> u in q && u != q[0]
  {
    RemoveOne(q, 0);
    assert Without(q, 0) == q[1..];
  }

  /** `condvar_wait` hands the mutex to its first waiter and leaves the field as it was: it is right afterwards
      exactly when it named that waiter already. */
  lemma OwnersAfterCondvarWait(k: Kernel, place: Places, h: Holdings, id: nat, mutex: nat)
    requires KernelOk(k, place) && k.HasCurrent() && k.Legal(CondvarWait(id, mutex)) && OwnersRight(k, h)
    ensures OwnersRight(k.Handle(CondvarWait(id, mutex)), NextHoldings(k, CondvarWait(id, mutex), h)) <==>
              && mutex < |k.CurrentProc().owners|
              && k.CurrentProc().owners[mutex] == Some(k.CurrentProc().mutexes[mutex].value.queue[0])
  {
    var t := CondvarWait(id, mutex);
    var k', h', me, p := k.Handle(t), NextHoldings(k, t, h), k.CurrentPid(), k.CurrentProc();
    var w := p.mutexes[mutex].value.queue[0];
    assert ProcOwners(k.procs[me], me, h);
    OwnQueue(k, place, mutex);
    CondvarEffect(k, id, mutex);
    forall x: Holding
      ensures x in h' <==> x == Holding(me, mutex, w) || (x in h && x != Holding(me, mutex, k.current.value))
    {
      WaitQueue(k, place, id, mutex, x);
    }
    assert Holding(me, mutex, w) in h';
    if p.owners[mutex] == Some(w) {
      forall pid | pid in k'.procs
        ensures ProcOwners(k'.procs[pid], pid, h')
      {
        assert ProcOwners(k.procs[pid], pid, h);
      }
    } else {
      assert !ProcOwners(k'.procs[me], me, h');
    }
  }

  lemma CondvarEffect(k: Kernel, id: nat, mutex: nat)
    requires k.HasCurrent() && k.Legal(CondvarWait(id, mutex))
    ensures var k', me, p, c := k.Handle(CondvarWait(id, mutex)), k.CurrentPid(), k.CurrentProc(), k.current.value;
            && me in k'.procs && k'.procs == k.procs[me := k'.procs[me]] && k'.procs[me].owners == p.owners
                 && k'.nextPid == k.nextPid
            && k'.procs[me].mutexes == p.mutexes[mutex := Some(p.mutexes[mutex].value.Unlock().Lock(c))]
  {
  }

  lemma WaitQueue(k: Kernel, place: Places, id: nat, mutex: nat, x: Holding)
    requires KernelOk(k, place) && k.HasCurrent() && k.Legal(CondvarWait(id, mutex))
    ensures x.tid in At(k, OnMutex(x.pid, x.id)) && x.tid !in At(k.Handle(CondvarWait(id, mutex)), OnMutex(x.pid, x.id))
            <==> x == Holding(k.CurrentPid(), mutex, k.CurrentProc().mutexes[mutex].value.queue[0])
  {
    OwnQueue(k, place, mutex);
    CondvarEffect(k, id, mutex);
    FirstOut(k.CurrentProc().mutexes[mutex].value.queue);
  }

  // ---- the relock check ----

  /** No owner waits for the mutex it owns. */
  predicate NotSelfQueued(p: Proc) {
    forall i :: 0 <= i < |p.mutexes| && i < |p.owners| && p.mutexes[i].Some? && p.owners[i].Some? ==>
      p.owners[i].value !in p.mutexes[i].value.queue
  }

  ghost predicate Checked(k: Kernel) {
    forall pid {:trigger NotSelfQueued(k.procs[pid])} ::
      pid in k.procs && k.procs[pid].detect ==> NotSelfQueued(k.procs[pid])
  }

  /** With the check enabled before anybody is stuck, nobody gets stuck behind itself. */
  lemma CheckedKept(k: Kernel, place: Places, t: Trap)
    requires KernelOk(k, place) && k.HasCurrent() && k.Legal(t) && Checked(k) && !t.CondvarWait?
    requires t == EnableDeadlockDetect(1) ==> NotSelfQueued(k.CurrentProc())
    ensures Checked(k.Handle(t))
  {
    var k', me := k.Handle(t), k.CurrentPid();
    assert ProcessOk(k, me);
    if IsMutexTrap(t) {
      CheckedMutex(k, place, t);
    } else {
      forall pid | pid in k'.procs && k'.procs[pid].detect
        ensures NotSelfQueued(k'.procs[pid])
      {
        MutexesKept(k, t, pid);
        if pid in k.procs && k.procs[pid].detect { assert NotSelfQueued(k.procs[pid]); }
      }
    }
  }

  lemma CheckedMutex(k: Kernel, place: Places, t: Trap)
    requires KernelOk(k, place) && k.HasCurrent() && k.Legal(t) && Checked(k)
             && (t.MutexCreate? || t.MutexLock? || t.MutexUnlock?)
    ensures Checked(k.Handle(t))
  {
    var k', me := k.Handle(t), k.CurrentPid();
    assert ProcessOk(k, me);
    assert k.procs[me].detect ==> NotSelfQueued(k.procs[me]);
    if t.MutexCreate? {
      CreateEffect(k, t);
    } else if t.MutexLock? {
      OwnQueue(k, place, t.id);
      LockEffect(k, t.id);
    } else {
      OwnQueue(k, place, t.id);
      UnlockEffect(k, t.id);
      if k.CurrentProc().mutexes[t.id].value.queue != [] { FirstOut(k.CurrentProc().mutexes[t.id].value.queue); }
    }
    assert k.procs[me].detect ==> NotSelfQueued(k'.procs[me]);
    forall pid | pid in k'.procs && k'.procs[pid].detect
      ensures NotSelfQueued(k'.procs[pid])
    {
      if pid != me { assert NotSelfQueued(k.procs[pid]); }
    }
  }

  /** Without the check a thread does get stuck: it locks what it holds, and waits for itself. */
  lemma RelockWithoutCheck(k: Kernel, place: Places, id: nat)
    requires KernelOk(k, place) && k.HasCurrent() && k.Legal(MutexLock(id))
    requires k.CurrentProc().owners[id] == Some(k.current.value)
    ensures var k', pid, c := k.Handle(MutexLock(id)), k.CurrentPid(), k.current.value;
            if k.CurrentProc().detect then k'.procs == k.procs && k'.ready == k.ready + [c]
            else
              && k'.ready == k.ready && c in k'.procs[pid].mutexes[id].value.queue
              && k'.procs[pid].owners[id] == Some(c)
  {
    assert ProcessOk(k, k.CurrentPid());
    var k', c := k.Handle(MutexLock(id)), k.current.value;
    if !k.CurrentProc().detect {
      var q := k'.procs[k.CurrentPid()].mutexes[id].value.queue;
      assert q[|q| - 1] == c;
    }
  }

  // ---- whole runs ----

  /** Who holds what at the end of a run. */
  ghost function HoldingsAfter(k: Kernel, ts: seq<Trap>, h: Holdings): Holdings
    decreases |ts|
  {
    if ts == [] then h
    else
      var k1 := k.FindNext();
      HoldingsAfter(Step(k, ts[0]), ts[1..],
                    if k1.HasCurrent() && k1.Legal(ts[0]) then NextHoldings(k1, ts[0], h) else h)
  }

  /** Nobody waits for a condition, and only holders unlock. */
  ghost predicate Disciplined(k: Kernel, ts: seq<Trap>, h: Holdings)
    decreases |ts|
  {
    ts == []
    || (var k1 := k.FindNext();
        k1.HasCurrent() && k1.Legal(ts[0]) ==>
          !ts[0].CondvarWait? && HolderUnlocks(k1, ts[0], h)
            && Disciplined(Step(k, ts[0]), ts[1..], NextHoldings(k1, ts[0], h)))
  }

  /** Whenever a process turns the check on, none of its threads waits for a mutex that it owns. */
  predicate EnabledInTime(k: Kernel, ts: seq<Trap>)
    decreases |ts|
  {
    ts == []
    || ((k.FindNext().HasCurrent() && ts[0] == EnableDeadlockDetect(1) ==> NotSelfQueued(k.FindNext().CurrentProc()))
        && EnabledInTime(Step(k, ts[0]), ts[1..]))
  }

  lemma {:induction false} OwnersRunFrom(k: Kernel, place: Places, b: Books, h: Holdings, ts: seq<Trap>)
    requires Good(k, place, b) && AllowedRun(k, ts) && Disciplined(k, ts, h) && OwnersRight(k, h)
    ensures OwnersRight(After(k, ts), HoldingsAfter(k, ts, h))
    ensures Checked(k) && EnabledInTime(k, ts) ==> Checked(After(k, ts))
    decreases |ts|
  {
    if ts != [] {
      var k1, t := k.FindNext(), ts[0];
      var place1 := FetchKeeps(k, place, b);
      var place2, b2 := StepKeeps(k, place, b, t);
      Fetch(k, h);
      OwnersKept(k1, place1, h, t);
      if Checked(k) && EnabledInTime(k, ts) { CheckedKept(k1, place1, t); }
      OwnersRunFrom(Step(k, t), place2, b2, NextHoldings(k1, t, h), ts[1..]);
    }
  }

  lemma Fetch(k: Kernel, h: Holdings)
    ensures OwnersRight(k, h) ==> OwnersRight(k.FindNext(), h)
    ensures Checked(k) ==> Checked(k.FindNext())
  {
  }

  /** From boot, in every run in which only holders unlock and nobody calls `condvar_wait`: the owner field of a mutex
      names a thread if and only if that thread holds it; there is such a thread exactly while the mutex is locked, and
      never a second one; and where the check is on, no owner waits for its own mutex. */
  lemma OwnersRun(ts: seq<Trap>, pid: Pid, id: nat)
    requires AllowedRun(Boot(), ts) && Disciplined(Boot(), ts, iset{})
    requires pid in After(Boot(), ts).procs && id < |After(Boot(), ts).procs[pid].mutexes|
    requires After(Boot(), ts).procs[pid].mutexes[id].Some?
    ensures var p, h := After(Boot(), ts).procs[pid], HoldingsAfter(Boot(), ts, iset{});
            && id < |p.owners| && (p.owners[id].Some? <==> p.mutexes[id].value.locked)
            && (forall tid: Tid :: p.owners[id] == Some(tid) <==> Holding(pid, id, tid) in h)
            && (forall t: Tid, u: Tid :: Holding(pid, id, t) in h && Holding(pid, id, u) in h ==> t == u)
            && (p.detect && EnabledInTime(Boot(), ts) && p.owners[id].Some? ==>
                 p.owners[id].value !in p.mutexes[id].value.queue)
  {
    var k, h := After(Boot(), ts), HoldingsAfter(Boot(), ts, iset{});
    var place, b := BootGood();
    var place', b' := RunKeeps(Boot(), place, b, ts);
    BootOwners();
    OwnersRunFrom(Boot(), place, b, iset{}, ts);
    assert ProcessOk(k, pid) && ProcOwners(k.procs[pid], pid, h);
    assert Checked(k) && k.procs[pid].detect ==> NotSelfQueued(k.procs[pid]);
  }

  lemma BootOwners()
    ensures Checked(Boot()) && OwnersRight(Boot(), iset{})
  {
    assert Boot().procs == map[0 := NEW_PROC];
  }
}
