/** The bounded buffer as threads of the kernel, from the moment its main thread starts to create semaphores and
    threads: whatever else runs, no call fails, the kernel carries out a schedule of the program, and as long as the
    program is not complete there is a thread to run that brings it on.
  */
module BufferOnKernel {
  import opened Options
  import opened Sync
  import opened ProcThreadRels
  import opened KernelStates
  import opened KernelInvariants
  import opened KernelRuns
  import opened KernelPrograms
  import opened ProcessTrees
  import opened Sequences
  import B = BoundedBuffer

  // ---- the program in the tables of the kernel ----

  /** The threads created so far, in order, and the program. */
  datatype Table = Table(tids: seq<Tid>, work: B.State)

  const MUTEX: nat := 0
  const EMPTY: nat := 1
  const EXISTED: nat := 2
  const SEMAPHORES: nat := 3

  function Sem(s: B.State, id: nat): SemaphoreState {
    if id == MUTEX then s.mutex else if id == EMPTY then s.empty else s.existed
  }

  /** The count that main creates semaphore id with. */
  function FirstCount(id: nat): nat { if id == MUTEX then 1 else if id == EMPTY then B.BUFFER_SIZE else 0 }

  predicate IsSem(p: Proc, tb: Table, id: nat) {
    && id < |p.semaphores| && Known(tb.tids, Sem(tb.work, id).queue)
    && p.semaphores[id] == Some(SemaphoreState(Sem(tb.work, id).count, Threads(tb.tids, Sem(tb.work, id).queue)))
  }

  function Made(k: Kernel, pid: Pid): nat { if pid in k.procs then |k.procs[pid].semaphores| else 0 }

  predicate Ended(s: B.State, i: nat) {
    if i < |s.producers| then s.producers[i].pc == B.Finished else s.consumer.pc == B.Ended
  }

  /** Main still has semaphores or threads to create. */
  predicate SettingUp(k: Kernel, pid: Pid, tb: Table) {
    Made(k, pid) < SEMAPHORES || |tb.tids| < |tb.work.producers| + 1
  }

  /** Threads come after the semaphores. Semaphores that do not exist yet are as main will create them; threads that do
      not exist yet can start. */
  predicate InTurn(k: Kernel, pid: Pid, tb: Table) {
    && Made(k, pid) <= SEMAPHORES && (Made(k, pid) < SEMAPHORES ==> tb.tids == [])
    && (forall id :: Made(k, pid) <= id < SEMAPHORES ==> Sem(tb.work, id) == SemaphoreState(FirstCount(id), []))
    && forall i {:trigger tb.work.Runnable(i)} :: |tb.tids| <= i <= |tb.work.producers| ==> tb.work.Runnable(i)
  }

  ghost predicate Serves(k: Kernel, pid: Pid, main: Tid, tb: Table, total: nat) {
    && B.Inv(tb.work, total) && |tb.tids| <= |tb.work.producers| + 1 && NoDup(tb.tids) && InTurn(k, pid, tb)
    && (forall i {:trigger tb.tids[i]} :: 0 <= i < |tb.tids| ==> tb.tids[i] < k.nextTid)
    && pid in k.procs && k.procs[pid].mutexes == []
    && (forall id {:trigger IsSem(k.procs[pid], tb, id)} :: 0 <= id < Made(k, pid) ==> IsSem(k.procs[pid], tb, id))
    && (forall i {:trigger tb.tids[i]} :: 0 <= i < |tb.tids| && !Ended(tb.work, i) ==> Lives(k, pid, tb.tids[i]))
    && (SettingUp(k, pid, tb) ==> Lives(k, pid, main) && main !in tb.tids)
  }

  /** The next call of thread i; the consumer prints between taking the mutex and giving it back. */
  function TrapFor(s: B.State, i: nat): Trap {
    if i < |s.producers| then
      match s.producers[i].pc
      case DownEmpty => SemaphoreDown(EMPTY)
      case DownMutex => SemaphoreDown(MUTEX)
      case Store => SemaphoreUp(MUTEX)
      case UpExisted => SemaphoreUp(EXISTED)
      case _ => Other
    else
      match s.consumer.pc
      case DownExisted => SemaphoreDown(EXISTED)
      case TakeMutex => SemaphoreDown(MUTEX)
      case Advance => SemaphoreUp(MUTEX)
      case UpEmpty => SemaphoreUp(EMPTY)
      case _ => Other
  }

  predicate Prints(s: B.State, i: nat) { i == |s.producers| && s.consumer.pc == B.Print }

  /** Who is in the queue of a semaphore is blocked, and who is blocked is in the queue of one. */
  lemma QueueOfSem(s: B.State, total: nat, i: nat)
    requires B.Inv(s, total) && i <= |s.producers| && !Ended(s, i)
    ensures s.Runnable(i) <==> forall id :: 0 <= id < SEMAPHORES ==> i !in Sem(s, id).queue
  {
    assert Sem(s, MUTEX) == s.mutex && Sem(s, EMPTY) == s.empty && Sem(s, EXISTED) == s.existed;
    if !s.Runnable(i) { assert i in s.mutex.queue || i in s.empty.queue || i in s.existed.queue; }
  }

  lemma QueueKnown(k: Kernel, pid: Pid, main: Tid, tb: Table, total: nat, id: nat, i: nat)
    requires Serves(k, pid, main, tb, total) && id < SEMAPHORES && i in Sem(tb.work, id).queue
    ensures id < Made(k, pid) && i < |tb.tids| && tb.tids[i] in At(k, OnSemaphore(pid, id))
  {
    assert IsSem(k.procs[pid], tb, id);
    var q := Sem(tb.work, id).queue;
    var j :| 0 <= j < |q| && q[j] == i;
    assert At(k, OnSemaphore(pid, id))[j] == tb.tids[i];
  }

  /** A live thread of the process is running or ready, or belongs to a number in the queue of a semaphore. */
  lemma WhereItIs(k: Kernel, place: Places, pid: Pid, main: Tid, tb: Table, total: nat, t: Tid)
    requires KernelOk(k, place) && Serves(k, pid, main, tb, total) && Lives(k, pid, t)
    ensures t in place && t in At(k, place[t])
    ensures place[t] == Running || place[t] == Ready
            || (exists i, id ::
              0 <= i < |tb.tids| && tb.tids[i] == t && 0 <= id < SEMAPHORES && i in Sem(tb.work, id).queue)
  {
    var pl := place[t];
    assert QueueOk(k, place, pl) && t in At(k, pl);
    assert ProcessOk(k, pid);
    if pl != Running && pl != Ready {
      assert Waits(pl) == Some(pid) && pl.OnSemaphore?;
      assert IsSem(k.procs[pid], tb, pl.id);
      var q := Sem(tb.work, pl.id).queue;
      var j :| 0 <= j < |q| && tb.tids[q[j]] == t;
      assert q[j] in q;
    }
  }

  lemma ThreadPlace(k: Kernel, place: Places, pid: Pid, main: Tid, tb: Table, total: nat, i: nat)
    requires KernelOk(k, place) && Serves(k, pid, main, tb, total) && i < |tb.tids| && !Ended(tb.work, i)
    ensures tb.tids[i] in place && tb.tids[i] in At(k, place[tb.tids[i]])
    ensures place[tb.tids[i]] == Running || place[tb.tids[i]] == Ready <==> tb.work.Runnable(i)
  {
    var s, t := tb.work, tb.tids[i];
    assert Lives(k, pid, t);
    WhereItIs(k, place, pid, main, tb, total, t);
    QueueOfSem(s, total, i);
    if place[t] != Running && place[t] != Ready {
      var j, id :| 0 <= j < |tb.tids| && tb.tids[j] == t && 0 <= id < SEMAPHORES && j in Sem(s, id).queue;
      assert j == i;
    }
    if !s.Runnable(i) {
      var id :| 0 <= id < SEMAPHORES && i in Sem(s, id).queue;
      QueueKnown(k, pid, main, tb, total, id, i);
      assert QueueOk(k, place, OnSemaphore(pid, id));
    }
  }

  // ---- a trap of the program ----

  lemma SemsAfter(s: B.State, total: nat, i: nat)
    requires B.Inv(s, total) && s.Runnable(i)
    ensures i <= |s.producers| && s.front < |s.buffer| && s.tail < |s.buffer| && |s.Step(i).producers| == |s.producers|
    ensures var t := TrapFor(s, i);
            if Prints(s, i) then t == Other && forall id {:trigger Sem(s, id)} :: Sem(s.Step(i), id) == Sem(s, id)
            else (t.SemaphoreDown? || t.SemaphoreUp?) && t.id < SEMAPHORES
                 && forall id {:trigger Sem(s, id)} :: 0 <= id < SEMAPHORES ==>
                      Sem(s.Step(i), id) == if id != t.id then Sem(s, id)
                                            else if t.SemaphoreDown? then Sem(s, id).Down(i) else Sem(s, id).Up()
  {
    B.StepKeeps(s, i, total);
  }

  /** Nobody who had ended starts again, and nobody else who could run is held up. */
  lemma OthersAfter(s: B.State, total: nat, i: nat, j: nat)
    requires B.Inv(s, total) && s.Runnable(i) && j <= |s.producers| && i <= |s.producers| && s.front < |s.buffer|
             && s.tail < |s.buffer|
    ensures |s.Step(i).producers| == |s.producers| && (!Ended(s.Step(i), j) ==> !Ended(s, j))
    ensures j != i && s.Runnable(j) ==> s.Step(i).Runnable(j)
  {
    B.StepKeeps(s, i, total);
    if i < |s.producers| { OthersAfterProducer(s, i, j); } else { OthersAfterConsumer(s, j); }
  }

  lemma OthersAfterProducer(s: B.State, i: nat, j: nat)
    requires i < |s.producers| && j <= |s.producers| && s.front < |s.buffer|
    ensures !Ended(s.ProducerStep(i), j) ==> !Ended(s, j)
    ensures j != i && s.Runnable(j) ==> s.ProducerStep(i).Runnable(j)
  {
  }

  lemma OthersAfterConsumer(s: B.State, j: nat)
    requires j <= |s.producers| && s.tail < |s.buffer|
    ensures !Ended(s.ConsumerStep(), j) ==> !Ended(s, j)
    ensures j != |s.producers| && s.Runnable(j) ==> s.ConsumerStep().Runnable(j)
  {
  }

  /** What a semaphore call leaves alone, and what it does to its semaphore. */
  lemma SemaphoreTrap(k: Kernel, t: Trap)
    requires k.HasCurrent() && k.Legal(t) && (t.SemaphoreDown? || t.SemaphoreUp?)
    ensures var k', pid, s := k.Handle(t), k.CurrentPid(), k.CurrentProc().semaphores[t.id].value;
            && k'.tasks == k.tasks && k'.tid2pid == k.tid2pid && k'.nextTid == k.nextTid && pid in k'.procs
            && k'.procs[pid].mutexes == k.procs[pid].mutexes
            && k'.procs[pid].semaphores
               == k.procs[pid].semaphores[t.id := Some(if t.SemaphoreDown? then s.Down(k.current.value) else s.Up())]
  {
  }

  /** A running thread of the program is not blocked, and its call is legal. */
  lemma OwnLegal(k: Kernel, place: Places, pid: Pid, main: Tid, tb: Table, total: nat, i: nat)
    requires KernelOk(k, place) && Serves(k, pid, main, tb, total) && k.HasCurrent()
    requires i < |tb.tids| && k.current == Some(tb.tids[i]) && !Ended(tb.work, i)
    ensures tb.work.Runnable(i) && k.CurrentPid() == pid && k.Legal(TrapFor(tb.work, i))
    ensures !Prints(tb.work, i) ==> TrapFor(tb.work, i) != Other
  {
    ThreadPlace(k, place, pid, main, tb, total, i);
    assert QueueOk(k, place, Running) && tb.tids[i] in At(k, Running);
    assert tb.work.Runnable(i) && Lives(k, pid, tb.tids[i]);
    SemsAfter(tb.work, total, i);
    if !Prints(tb.work, i) { assert IsSem(k.procs[pid], tb, TrapFor(tb.work, i).id); }
  }

  /** What the call does to the semaphores of the process is what the step does to those of the program. */
  lemma OwnTrap(k: Kernel, pid: Pid, main: Tid, tb: Table, total: nat, i: nat)
    requires Members(k) && Serves(k, pid, main, tb, total) && k.HasCurrent() && i < |tb.tids|
             && k.current == Some(tb.tids[i])
    requires tb.work.Runnable(i) && k.CurrentPid() == pid && k.Legal(TrapFor(tb.work, i)) && !Prints(tb.work, i)
    ensures i <= |tb.work.producers| && tb.work.front < |tb.work.buffer| && tb.work.tail < |tb.work.buffer|
    ensures Serves(k.Handle(TrapFor(tb.work, i)), pid, main, tb.(work := tb.work.Step(i)), total)
  {
    var s, t := tb.work, TrapFor(tb.work, i);
    SemsAfter(s, total, i);
    SemaphoreTrap(k, t);
    assert IsSem(k.procs[pid], tb, t.id);
    ServedAfterStep(k, k.Handle(t), pid, main, tb, total, i);
  }

  lemma ServedAfterStep(k: Kernel, k': Kernel, pid: Pid, main: Tid, tb: Table, total: nat, i: nat)
    requires Serves(k, pid, main, tb, total) && i < |tb.tids| && tb.work.Runnable(i) && !Prints(tb.work, i)
    requires k'.tasks == k.tasks && k'.tid2pid == k.tid2pid && k'.nextTid == k.nextTid && pid in k'.procs
             && k'.procs[pid].mutexes == []
    requires var t := TrapFor(tb.work, i);
             && (t.SemaphoreDown? || t.SemaphoreUp?) && t.id < Made(k, pid) && k.procs[pid].semaphores[t.id].Some?
             && var m := k.procs[pid].semaphores[t.id].value;
                k'.procs[pid].semaphores
                == k.procs[pid].semaphores[t.id := Some(if t.SemaphoreDown? then m.Down(tb.tids[i]) else m.Up())]
    ensures i <= |tb.work.producers| && tb.work.front < |tb.work.buffer| && tb.work.tail < |tb.work.buffer|
    ensures Serves(k', pid, main, tb.(work := tb.work.Step(i)), total)
  {
    var s, t := tb.work, TrapFor(tb.work, i);
    SemsAfter(s, total, i);
    B.StepKeeps(s, i, total);
    var tb' := tb.(work := s.Step(i));
    forall id | 0 <= id < Made(k', pid)
      ensures IsSem(k'.procs[pid], tb', id)
    {
      assert IsSem(k.procs[pid], tb, id);
      if id == t.id { SemStep(k.procs[pid], k'.procs[pid], tb, total, i, id); }
    }
    forall j | 0 <= j <= |s.producers|
      ensures !Ended(s.Step(i), j) ==> !Ended(s, j)
      ensures |tb.tids| <= j ==> s.Step(i).Runnable(j)
    {
      OthersAfter(s, total, i, j);
      if |tb.tids| <= j { assert s.Runnable(j); }
    }
  }

  lemma SemStep(p: Proc, p': Proc, tb: Table, total: nat, i: nat, id: nat)
    requires B.Inv(tb.work, total) && tb.work.Runnable(i) && !Prints(tb.work, i) && i < |tb.tids| && IsSem(p, tb, id)
    requires id < SEMAPHORES && TrapFor(tb.work, i) in {SemaphoreDown(id), SemaphoreUp(id)} && id < |p'.semaphores|
    requires var m := p.semaphores[id].value;
             p'.semaphores[id] == Some(if TrapFor(tb.work, i).SemaphoreDown? then m.Down(tb.tids[i]) else m.Up())
    ensures i <= |tb.work.producers| && tb.work.front < |tb.work.buffer| && tb.work.tail < |tb.work.buffer|
    ensures IsSem(p', tb.(work := tb.work.Step(i)), id)
  {
    SemsAfter(tb.work, total, i);
    if TrapFor(tb.work, i).SemaphoreDown? {
      DownNamed(tb.tids, Sem(tb.work, id), i);
    } else {
      UpNamed(tb.tids, Sem(tb.work, id));
    }
  }

  lemma DownNamed(tids: seq<Tid>, s: SemaphoreState, i: nat)
    requires Known(tids, s.queue) && i < |tids|
    ensures Known(tids, s.Down(i).queue)
    ensures SemaphoreState(s.count, Threads(tids, s.queue)).Down(tids[i])
              == SemaphoreState(s.count - 1, Threads(tids, s.Down(i).queue))
  {
    if s.count <= 0 {
      assert s.Down(i).queue == s.queue + [i];
      ThreadsPush(tids, s.queue, i);
    } else {
      assert s.Down(i).queue == s.queue;
    }
  }

  lemma UpNamed(tids: seq<Tid>, s: SemaphoreState)
    requires Known(tids, s.queue)
    ensures Known(tids, s.Up().queue)
    ensures SemaphoreState(s.count, Threads(tids, s.queue)).Up()
              == SemaphoreState(s.count + 1, Threads(tids, s.Up().queue))
  {
    if s.queue != [] { ThreadsPop(tids, s.queue); }
  }

  /** Printing changes no semaphore. */
  lemma PrintTrap(k: Kernel, pid: Pid, main: Tid, tb: Table, total: nat, i: nat)
    requires Members(k) && Serves(k, pid, main, tb, total) && k.HasCurrent() && i < |tb.tids|
    requires tb.work.Runnable(i) && Prints(tb.work, i)
    ensures tb.work.front < |tb.work.buffer| && tb.work.tail < |tb.work.buffer|
    ensures Serves(k.Handle(Other), pid, main, tb.(work := tb.work.Step(i)), total)
  {
    var s := tb.work;
    SemsAfter(s, total, i);
    B.StepKeeps(s, i, total);
    var tb' := tb.(work := s.Step(i));
    forall id | 0 <= id < Made(k, pid)
      ensures IsSem(k.Handle(Other).procs[pid], tb', id)
    {
      assert IsSem(k.procs[pid], tb, id);
      assert Sem(s.Step(i), id) == Sem(s, id);
    }
    forall j | 0 <= j <= |s.producers|
      ensures !Ended(s.Step(i), j) ==> !Ended(s, j)
    {
      OthersAfter(s, total, i, j);
    }
    forall j | 0 <= j < |tb.tids| && !Ended(s.Step(i), j)
      ensures Lives(k.Handle(Other), pid, tb.tids[j])
    {
      assert Lives(k, pid, tb.tids[j]);
    }
  }

  // ---- the traps of main, and all others ----

  lemma SemaphoreAdded(k: Kernel, n: nat)
    requires k.HasCurrent() && forall i :: 0 <= i < |k.CurrentProc().semaphores| ==> k.CurrentProc().semaphores[i].Some?
    ensures var k', p, pid := k.Handle(SemaphoreCreate(n)), k.CurrentProc(), k.CurrentPid();
            && k'.tasks == k.tasks && k'.tid2pid == k.tid2pid && k'.nextTid == k.nextTid && pid in k'.procs
            && k'.procs[pid] == p.(semaphores := p.semaphores + [Some(SemaphoreState(n, []))])
  {
    var p := k.CurrentProc();
    assert FirstFree(p.semaphores) == |p.semaphores|;
  }

  lemma SemMade(k: Kernel, pid: Pid, main: Tid, tb: Table, total: nat)
    requires Members(k) && Serves(k, pid, main, tb, total) && k.HasCurrent() && k.CurrentPid() == pid
             && Made(k, pid) < SEMAPHORES
    ensures Serves(k.Handle(SemaphoreCreate(FirstCount(Made(k, pid)))), pid, main, tb, total)
  {
    var n, p := Made(k, pid), k.procs[pid];
    forall id | 0 <= id < n
      ensures p.semaphores[id].Some?
    {
      assert IsSem(p, tb, id);
    }
    SemaphoreAdded(k, FirstCount(n));
    var k' := k.Handle(SemaphoreCreate(FirstCount(n)));
    forall id | 0 <= id < n + 1
      ensures IsSem(k'.procs[pid], tb, id)
    {
      if id < n { assert IsSem(p, tb, id); }
    }
  }

  lemma ThreadMade(k: Kernel, pid: Pid, main: Tid, tb: Table, total: nat)
    requires Members(k) && Serves(k, pid, main, tb, total) && k.HasCurrent() && k.CurrentPid() == pid
             && k.current == Some(main)
    requires Made(k, pid) == SEMAPHORES && SettingUp(k, pid, tb)
    ensures k.Legal(ThreadCreate) && Serves(k.Handle(ThreadCreate), pid, main, tb.(tids := tb.tids + [k.nextTid]),
              total)
  {
    var k', t, tb' := k.Handle(ThreadCreate), k.nextTid, tb.(tids := tb.tids + [k.nextTid]);
    assert t in k.tasks ==> ThreadOk(k, t);
    forall id | 0 <= id < Made(k', pid)
      ensures IsSem(k'.procs[pid], tb', id)
    {
      assert IsSem(k.procs[pid], tb, id);
      assert Threads(tb'.tids, Sem(tb.work, id).queue) == Threads(tb.tids, Sem(tb.work, id).queue);
    }
    forall i | 0 <= i < |tb'.tids| && !Ended(tb.work, i)
      ensures Lives(k', pid, tb'.tids[i])
    {
      if i < |tb.tids| { assert Lives(k, pid, tb.tids[i]); }
    }
  }

  /** Some thread of the process that keeps it alive: main, or one that has not ended. */
  lemma Somebody(k: Kernel, pid: Pid, main: Tid, tb: Table, total: nat) returns (u: Tid)
    requires Serves(k, pid, main, tb, total) && !tb.work.AllDone()
    ensures Lives(k, pid, u)
    ensures if SettingUp(k, pid, tb) then u == main
            else exists i :: 0 <= i < |tb.tids| && tb.tids[i] == u && !Ended(tb.work, i)
  {
    if SettingUp(k, pid, tb) {
      u := main;
    } else {
      var i := |tb.work.producers|;
      if Ended(tb.work, i) {
        i :| 0 <= i < |tb.work.producers| && tb.work.producers[i].pc != B.Finished;
      }
      assert !Ended(tb.work, i);
      u := tb.tids[i];
    }
  }

  /** The running thread is one of the program that has not ended. */
  predicate Works(k: Kernel, tb: Table) {
    && k.current.Some?
    && var i := Seat(tb.tids, k.current.value); i < |tb.tids| && i <= |tb.work.producers| && !Ended(tb.work, i)
  }

  lemma NotWorking(k: Kernel, tb: Table)
    requires NoDup(tb.tids) && |tb.tids| <= |tb.work.producers| + 1 && !Works(k, tb)
    ensures forall i :: 0 <= i < |tb.tids| && !Ended(tb.work, i) ==> k.current != Some(tb.tids[i])
  {
    forall i | 0 <= i < |tb.tids| && !Ended(tb.work, i)
      ensures k.current != Some(tb.tids[i])
    {
      SeatOf(tb.tids, i);
    }
  }

  lemma OtherTrap(k: Kernel, pid: Pid, main: Tid, tb: Table, total: nat, t: Trap)
    requires Members(k) && Serves(k, pid, main, tb, total) && !tb.work.AllDone() && k.HasCurrent() && k.Legal(t)
    requires t == Other || (!Works(k, tb) && (SettingUp(k, pid, tb) ==> k.current != Some(main)))
    requires k.CurrentPid() == pid ==> Quiet(t)
    ensures Serves(k.Handle(t), pid, main, tb, total)
  {
    var u := Somebody(k, pid, main, tb, total);
    if t != Other { NotWorking(k, tb); }
    OtherTables(k, pid, u, t);
    forall i | 0 <= i < |tb.tids| && !Ended(tb.work, i)
      ensures Lives(k.Handle(t), pid, tb.tids[i])
    {
      assert Lives(k, pid, tb.tids[i]);
      OtherTables(k, pid, tb.tids[i], t);
    }
    ThreadsGrow(k, t);
    forall id | 0 <= id < Made(k, pid)
      ensures IsSem(k.Handle(t).procs[pid], tb, id)
    {
      assert IsSem(k.procs[pid], tb, id);
    }
  }

  // ---- runs of the kernel ----

  predicate MainActs(k: Kernel, pid: Pid, main: Tid, tb: Table) {
    !Works(k, tb) && SettingUp(k, pid, tb) && k.current == Some(main)
  }

  /** What the threads do: those of the program make its calls, and calls without effect; main creates the semaphores
      and then the threads; other threads of the process do not touch its semaphores; other processes do what they
      like, as long as it is allowed. */
  predicate Acts(k: Kernel, pid: Pid, main: Tid, tb: Table, t: Trap)
    requires k.HasCurrent()
  {
    if Works(k, tb) then t in {Other, TrapFor(tb.work, Seat(tb.tids, k.current.value))}
    else if MainActs(k, pid, main, tb) then
      t in {Other, if Made(k, pid) < SEMAPHORES then SemaphoreCreate(FirstCount(Made(k, pid))) else ThreadCreate}
    else Allowed(k, t) && (k.CurrentPid() == pid ==> Quiet(t))
  }

  /** The trap is a step of the program: a call on a semaphore, or the printing. */
  predicate Moves(k: Kernel, tb: Table, t: Trap) {
    Works(k, tb) && (t != Other || Prints(tb.work, Seat(tb.tids, k.current.value)))
  }

  predicate CanStep(s: B.State, i: nat) { i <= |s.producers| && s.front < |s.buffer| && s.tail < |s.buffer| }

  function NextTable(k: Kernel, pid: Pid, main: Tid, tb: Table, t: Trap): Table {
    if Moves(k, tb, t) && CanStep(tb.work, Seat(tb.tids, k.current.value)) then
      tb.(work := tb.work.Step(Seat(tb.tids, k.current.value)))
    else if MainActs(k, pid, main, tb) && t == ThreadCreate then tb.(tids := tb.tids + [k.nextTid])
    else tb
  }

  predicate Runs(k: Kernel, pid: Pid, main: Tid, tb: Table, ts: seq<Trap>)
    decreases |ts|
  {
    if tb.work.AllDone() then AllowedRun(k, ts)
    else
      ts == []
      || (k.FindNext().HasCurrent() ==>
            && Acts(k.FindNext(), pid, main, tb, ts[0])
            && Runs(Step(k, ts[0]), pid, main, NextTable(k.FindNext(), pid, main, tb, ts[0]), ts[1..]))
  }

  /** The table at the end of the run, or when the program is complete. */
  function TableAfter(k: Kernel, pid: Pid, main: Tid, tb: Table, ts: seq<Trap>): Table
    decreases |ts|
  {
    if ts == [] || tb.work.AllDone() then tb
    else TableAfter(Step(k, ts[0]), pid, main, NextTable(k.FindNext(), pid, main, tb, ts[0]), ts[1..])
  }

  /** The steps of the program that a run of the kernel makes. */
  function Steps(k: Kernel, pid: Pid, main: Tid, tb: Table, ts: seq<Trap>): seq<nat>
    decreases |ts|
  {
    if ts == [] || tb.work.AllDone() then []
    else (if Moves(k.FindNext(), tb, ts[0]) then [Seat(tb.tids, k.FindNext().current.value)] else [])
         + Steps(Step(k, ts[0]), pid, main, NextTable(k.FindNext(), pid, main, tb, ts[0]), ts[1..])
  }

  lemma FetchServed(k: Kernel, pid: Pid, main: Tid, tb: Table, total: nat)
    requires Serves(k, pid, main, tb, total)
    ensures Serves(k.FindNext(), pid, main, tb, total) && Made(k.FindNext(), pid) == Made(k, pid)
  {
  }

  lemma OwnServed(k: Kernel, place: Places, pid: Pid, main: Tid, tb: Table, total: nat, t: Trap)
    requires KernelOk(k, place) && Serves(k, pid, main, tb, total) && k.HasCurrent() && Moves(k, tb, t)
             && Acts(k, pid, main, tb, t)
    ensures Allowed(k, t) && k.Legal(t) && Serves(k.Handle(t), pid, main, NextTable(k, pid, main, tb, t), total)
    ensures tb.work.Runnable(Seat(tb.tids, k.current.value)) && CanStep(tb.work, Seat(tb.tids, k.current.value))
  {
    var i := Seat(tb.tids, k.current.value);
    OwnLegal(k, place, pid, main, tb, total, i);
    SemsAfter(tb.work, total, i);
    if Prints(tb.work, i) {
      PrintTrap(k, pid, main, tb, total, i);
    } else {
      OwnTrap(k, pid, main, tb, total, i);
    }
  }

  /** A trap is allowed and keeps the tables and the program in step. */
  lemma TrapServed(k: Kernel, place: Places, pid: Pid, main: Tid, tb: Table, total: nat, t: Trap)
    requires KernelOk(k, place) && TreeOk(k) && Serves(k, pid, main, tb, total) && !tb.work.AllDone()
    requires k.HasCurrent() && Acts(k, pid, main, tb, t)
    ensures Allowed(k, t) && k.Legal(t) && Serves(k.Handle(t), pid, main, NextTable(k, pid, main, tb, t), total)
    ensures var i := if k.current.Some? then Seat(tb.tids, k.current.value) else 0;
            Moves(k, tb, t) ==> tb.work.Runnable(i) && CanStep(tb.work, i)
  {
    if Moves(k, tb, t) {
      OwnServed(k, place, pid, main, tb, total, t);
    } else if t != Other && MainActs(k, pid, main, tb) {
      if t == ThreadCreate { ThreadMade(k, pid, main, tb, total); } else { SemMade(k, pid, main, tb, total); }
    } else {
      if t != Other { LegalIfAllowed(k, t); }
      OtherTrap(k, pid, main, tb, total, t);
    }
  }

  /** One round of the loop: allowed, and everything holds again. */
  lemma WorkKept(k: Kernel, place: Places, b: Books, pid: Pid, main: Tid, tb: Table, total: nat, t: Trap)
    returns (place': Places, b': Books)
    requires Good(k, place, b) && Serves(k, pid, main, tb, total) && !tb.work.AllDone()
    requires k.ready != [] && (k.FindNext().HasCurrent() ==> Acts(k.FindNext(), pid, main, tb, t))
    ensures k.FindNext().HasCurrent() && Allowed(k.FindNext(), t) && Good(Step(k, t), place', b')
    ensures Serves(Step(k, t), pid, main, NextTable(k.FindNext(), pid, main, tb, t), total)
    ensures var i := Seat(tb.tids, k.FindNext().current.value);
            Moves(k.FindNext(), tb, t) ==> tb.work.Runnable(i) && CanStep(tb.work, i)
  {
    var place1 := FetchKeeps(k, place, b);
    FetchServed(k, pid, main, tb, total);
    TrapServed(k.FindNext(), place1, pid, main, tb, total, t);
    place', b' := StepKeeps(k, place, b, t);
  }

  /** The program is complete; or main has semaphores or threads to create and will be run; or a thread of the program
      that is not blocked will be run. */
  ghost predicate GoesOn(k: Kernel, pid: Pid, main: Tid, tb: Table, total: nat) {
    tb.work.AllDone()
    || (Serves(k, pid, main, tb, total)
        && if SettingUp(k, pid, tb) then main in k.ready
           else exists i: nat :: tb.work.Runnable(i) && i < |tb.tids| && tb.tids[i] in k.ready)
  }

  lemma NobodyStuck(k: Kernel, place: Places, pid: Pid, main: Tid, tb: Table, total: nat)
    requires KernelOk(k, place) && k.current.None? && Serves(k, pid, main, tb, total)
    ensures GoesOn(k, pid, main, tb, total) && (!tb.work.AllDone() ==> k.ready != [])
  {
    if !tb.work.AllDone() {
      if SettingUp(k, pid, tb) {
        WhereItIs(k, place, pid, main, tb, total, main);
      } else {
        B.SomebodyRuns(tb.work, total);
        var i :| tb.work.Runnable(i);
        ThreadPlace(k, place, pid, main, tb, total, i);
      }
    }
  }

  lemma ScheduleCons(s: B.State, i: nat, rest: seq<nat>)
    requires CanStep(s, i) && s.Runnable(i) && B.Schedule(s.Step(i), rest)
    ensures B.Schedule(s, [i] + rest) && B.After(s, [i] + rest) == B.After(s.Step(i), rest)
  {
    assert ([i] + rest)[1..] == rest;
  }

  /** What one round of the loop adds to the steps of the program. */
  lemma RoundCounted(k: Kernel, pid: Pid, main: Tid, tb: Table, ts: seq<Trap>, tb': Table, rest: seq<nat>)
    requires !tb.work.AllDone() && ts != [] && tb' == NextTable(k.FindNext(), pid, main, tb, ts[0])
    requires Moves(k.FindNext(), tb, ts[0]) ==>
               && CanStep(tb.work, Seat(tb.tids, k.FindNext().current.value))
               && tb.work.Runnable(Seat(tb.tids, k.FindNext().current.value))
    requires rest == Steps(Step(k, ts[0]), pid, main, tb', ts[1..]) && B.Schedule(tb'.work, rest)
    requires TableAfter(Step(k, ts[0]), pid, main, tb', ts[1..]).work == B.After(tb'.work, rest)
    ensures B.Schedule(tb.work, Steps(k, pid, main, tb, ts))
    ensures TableAfter(k, pid, main, tb, ts).work == B.After(tb.work, Steps(k, pid, main, tb, ts))
  {
    if Moves(k.FindNext(), tb, ts[0]) {
      var i := Seat(tb.tids, k.FindNext().current.value);
      assert tb'.work == tb.work.Step(i);
      ScheduleCons(tb.work, i, rest);
    } else {
      assert tb'.work == tb.work && [] + rest == rest;
    }
  }

  /** In every run all calls are allowed, the threads carry out a schedule of the program, and nothing is stuck until it
      is complete. */
  lemma {:induction false} ProgramRuns(k: Kernel, place: Places, b: Books, pid: Pid, main: Tid, tb: Table, total: nat,
      ts: seq<Trap>)
    requires Good(k, place, b) && Serves(k, pid, main, tb, total) && Runs(k, pid, main, tb, ts)
    ensures AllowedRun(k, ts) && GoesOn(After(k, ts), pid, main, TableAfter(k, pid, main, tb, ts), total)
    ensures B.Schedule(tb.work, Steps(k, pid, main, tb, ts))
    ensures TableAfter(k, pid, main, tb, ts).work == B.After(tb.work, Steps(k, pid, main, tb, ts))
    decreases |ts|
  {
    NobodyStuck(k, place, pid, main, tb, total);
    if !tb.work.AllDone() && ts != [] {
      var place', b' := WorkKept(k, place, b, pid, main, tb, total, ts[0]);
      var tb' := NextTable(k.FindNext(), pid, main, tb, ts[0]);
      ProgramRuns(Step(k, ts[0]), place', b', pid, main, tb', total, ts[1..]);
      RoundCounted(k, pid, main, tb, ts, tb', Steps(Step(k, ts[0]), pid, main, tb', ts[1..]));
    }
  }

  /** The bounded buffer from boot. Process 0 is the program, thread 0 its main thread: no call fails, the buffer never
      holds more than eight values, they come out in the order in which they went in, at most as many steps happen as
      there is work, and nothing is stuck before all values have been consumed. */
  lemma BufferFromBoot(n: nat, per: nat, ts: seq<Trap>)
    requires n * per > 0 && Runs(Boot(), 0, 0, Table([], B.Start(n, per)), ts)
    ensures var tb := Table([], B.Start(n, per));
            var tb' := TableAfter(Boot(), 0, 0, tb, ts);
            && AllowedRun(Boot(), ts) && Safe(Boot(), ts) && GoesOn(After(Boot(), ts), 0, 0, tb', n * per)
            && tb'.work.consumed <= tb'.work.stored && |tb'.work.stored| - |tb'.work.consumed| <= B.BUFFER_SIZE
            && |Steps(Boot(), 0, 0, tb, ts)| <= B.Work(tb.work)
            && (tb'.work.AllDone() ==> tb'.work.consumed == tb'.work.stored && |tb'.work.consumed| == n * per)
  {
    var tb := Table([], B.Start(n, per));
    var place, b := BootGood();
    BootIs();
    B.StartInv(n, per);
    StartRunnable(n, per);
    ProgramRuns(Boot(), place, b, 0, 0, tb, n * per, ts);
    var place', b' := RunKeeps(Boot(), place, b, ts);
    B.ProgramCorrect(n, per, Steps(Boot(), 0, 0, tb, ts));
    var tb' := TableAfter(Boot(), 0, 0, tb, ts);
    if tb'.work.AllDone() { NoneRunnable(tb'.work); }
  }

  lemma StartRunnable(n: nat, per: nat)
    requires n * per > 0
    ensures forall i :: 0 <= i <= n ==> B.Start(n, per).Runnable(i)
  {
    assert per > 0;
  }

  lemma NoneRunnable(s: B.State)
    requires s.AllDone()
    ensures forall i :: !s.Runnable(i)
  {
  }
}
