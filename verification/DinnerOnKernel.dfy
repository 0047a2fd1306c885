/** The philosophers as threads of the kernel, from the moment their main thread starts to create forks and threads:
    whatever else runs, no call of theirs fails, the kernel carries out a schedule of the dinner, and as long as the
    dinner is not over it has a thread to run that brings it on.
  */
module DinnerOnKernel {
  import opened Options
  import opened Sync
  import opened ProcThreadRels
  import opened KernelStates
  import opened KernelInvariants
  import opened KernelRuns
  import opened KernelPrograms
  import opened ProcessTrees
  import opened Sequences
  import P = Philosophers

  // ---- the dinner in the tables of the kernel ----

  /** The threads created so far, in order, and the dinner. */
  datatype Table = Table(tids: seq<Tid>, dinner: P.State)

  /** Mutex f of the process is fork f. */
  predicate IsFork(p: Proc, tb: Table, f: nat) {
    && f < |p.mutexes| && f < |p.owners| && f < |tb.dinner.forks| && Known(tb.tids, tb.dinner.forks[f].queue)
    && p.mutexes[f] == Some(MutexState(tb.dinner.forks[f].locked, Threads(tb.tids, tb.dinner.forks[f].queue)))
  }

  /** How many forks there are already. */
  function Made(k: Kernel, pid: Pid): nat { if pid in k.procs then |k.procs[pid].mutexes| else 0 }

  /** Main still has forks or threads to create. */
  predicate SettingUp(k: Kernel, pid: Pid, tb: Table) {
    Made(k, pid) < |tb.dinner.forks| || |tb.tids| < |tb.dinner.phils|
  }

  /** Forks and threads are created in turn: forks that do not exist yet are free, and philosophers who do not exist
      yet have done nothing. */
  predicate InTurn(k: Kernel, pid: Pid, tb: Table) {
    && |tb.tids| <= Made(k, pid) <= |tb.tids| + 1 && Made(k, pid) <= |tb.dinner.forks|
    && (forall f :: Made(k, pid) <= f < |tb.dinner.forks| ==> tb.dinner.forks[f] == FREE)
    && forall i :: |tb.tids| <= i < |tb.dinner.phils| ==> tb.dinner.phils[i].pc == P.LockMin
  }

  /** Process pid holds the forks, and the thread of each philosopher who has not finished is alive in it; so is main,
      while it is not through. */
  ghost predicate Serves(k: Kernel, pid: Pid, main: Tid, tb: Table) {
    && P.Inv(tb.dinner) && |tb.tids| <= |tb.dinner.phils| && NoDup(tb.tids) && InTurn(k, pid, tb)
    && (forall i {:trigger tb.tids[i]} :: 0 <= i < |tb.tids| ==> tb.tids[i] < k.nextTid)
    && pid in k.procs && !k.procs[pid].detect && k.procs[pid].semaphores == []
    && (forall f {:trigger IsFork(k.procs[pid], tb, f)} :: 0 <= f < Made(k, pid) ==> IsFork(k.procs[pid], tb, f))
    && (forall i {:trigger tb.tids[i]} ::
         0 <= i < |tb.tids| && tb.dinner.phils[i].pc != P.Finished ==> Lives(k, pid, tb.tids[i]))
    && (SettingUp(k, pid, tb) ==> Lives(k, pid, main) && main !in tb.tids)
  }

  /** The next lock call of philosopher i. */
  function TrapFor(s: P.State, i: nat): Trap
    requires s.Shape() && i < |s.phils|
  {
    match s.phils[i].pc
    case LockMin => MutexLock(s.Fork(i, false))
    case LockMax => MutexLock(s.Fork(i, true))
    case UnlockMax => MutexUnlock(s.Fork(i, true))
    case UnlockMin => MutexUnlock(s.Fork(i, false))
    case _ => Other
  }

  /** Who is in the queue of a fork: threads that have been created, and the fork has been, too. */
  lemma QueueOfFork(k: Kernel, pid: Pid, main: Tid, tb: Table, f: nat, i: nat)
    requires Serves(k, pid, main, tb) && f < |tb.dinner.forks| && i in tb.dinner.forks[f].queue
    ensures f < Made(k, pid) && i < |tb.tids| && tb.tids[i] in At(k, OnMutex(pid, f)) && P.WaitsFor(tb.dinner, i, f)
  {
    assert P.ForkOk(tb.dinner, f);
    assert IsFork(k.procs[pid], tb, f);
    var q := tb.dinner.forks[f].queue;
    var j :| 0 <= j < |q| && q[j] == i;
    assert At(k, OnMutex(pid, f))[j] == tb.tids[i];
  }

  /** A live thread of the process is running or ready, or the thread of a philosopher who waits for a fork. */
  lemma WhereItIs(k: Kernel, place: Places, pid: Pid, main: Tid, tb: Table, t: Tid)
    requires KernelOk(k, place) && Serves(k, pid, main, tb) && Lives(k, pid, t)
    ensures t in place && t in At(k, place[t])
    ensures place[t] == Running || place[t] == Ready
            || (exists i, f ::
              0 <= i < |tb.tids| && tb.tids[i] == t && 0 <= f < |tb.dinner.forks| && i in tb.dinner.forks[f].queue)
  {
    var pl := place[t];
    assert QueueOk(k, place, pl) && t in At(k, pl);
    assert ProcessOk(k, pid);
    if pl != Running && pl != Ready {
      assert Waits(pl) == Some(pid) && pl.OnMutex?;
      assert IsFork(k.procs[pid], tb, pl.id);
      var q := tb.dinner.forks[pl.id].queue;
      var j :| 0 <= j < |q| && tb.tids[q[j]] == t;
      assert q[j] in q;
    }
  }

  /** Where the thread of a philosopher is: in the queue of a fork exactly when the philosopher waits for one. */
  lemma ThreadPlace(k: Kernel, place: Places, pid: Pid, main: Tid, tb: Table, i: nat)
    requires KernelOk(k, place) && Serves(k, pid, main, tb) && i < |tb.tids| && tb.dinner.phils[i].pc != P.Finished
    ensures tb.tids[i] in place && tb.tids[i] in At(k, place[tb.tids[i]])
    ensures place[tb.tids[i]] == Running || place[tb.tids[i]] == Ready <==>
              tb.dinner.phils[i].pc !in {P.AwaitMin, P.AwaitMax}
  {
    var s, t := tb.dinner, tb.tids[i];
    assert Lives(k, pid, t);
    WhereItIs(k, place, pid, main, tb, t);
    if place[t] != Running && place[t] != Ready {
      var j, f :| 0 <= j < |tb.tids| && tb.tids[j] == t && 0 <= f < |s.forks| && j in s.forks[f].queue;
      assert j == i;
      QueueOfFork(k, pid, main, tb, f, i);
    }
    if s.phils[i].pc in {P.AwaitMin, P.AwaitMax} {
      var f := s.Fork(i, s.phils[i].pc == P.AwaitMax);
      P.Ordered(|s.phils|, i);
      assert P.ForkOk(s, f) && P.WaitsFor(s, i, f);
      QueueOfFork(k, pid, main, tb, f, i);
      assert QueueOk(k, place, OnMutex(pid, f));
    }
  }

  // ---- a trap of a philosopher ----

  lemma ForksAfter(s: P.State, i: nat)
    requires P.Inv(s) && s.Runnable(i)
    ensures var t := TrapFor(s, i);
            && t in {MutexLock(s.Fork(i, false)), MutexLock(s.Fork(i, true)), MutexUnlock(s.Fork(i, false)),
                 MutexUnlock(s.Fork(i, true))}
            && t.id < |s.forks| && |s.Step(i).phils| == |s.phils|
            && s.Step(i).forks == s.forks[t.id := if t.MutexLock? then s.forks[t.id].Lock(i)
                 else s.forks[t.id].Unlock()]
            && (t.MutexUnlock? ==> s.forks[t.id].locked)
    ensures forall j :: 0 <= j < |s.phils| && s.Step(i).phils[j].pc != P.Finished ==> s.phils[j].pc != P.Finished
    ensures forall j :: 0 <= j < |s.phils| && j != i && s.phils[j].pc !in {P.AwaitMin, P.AwaitMax} ==>
              s.Step(i).phils[j] == s.phils[j]
  {
    P.Ordered(|s.phils|, i);
    var f := s.Fork(i, s.phils[i].pc in {P.LockMax, P.UnlockMax});
    assert P.ForkOk(s, f);
    if s.phils[i].pc in {P.UnlockMax, P.UnlockMin} { assert P.Holds(s, i, f); }
  }

  /** A running philosopher is not blocked, and its call is legal if and only if its fork has been created. */
  lemma OwnLegal(k: Kernel, place: Places, pid: Pid, main: Tid, tb: Table, i: nat)
    requires KernelOk(k, place) && Serves(k, pid, main, tb) && k.HasCurrent()
    requires i < |tb.tids| && k.current == Some(tb.tids[i]) && tb.dinner.phils[i].pc != P.Finished
    ensures tb.dinner.Runnable(i) && k.CurrentPid() == pid && TrapFor(tb.dinner, i) != Other
    ensures k.Legal(TrapFor(tb.dinner, i)) <==> TrapFor(tb.dinner, i).id < Made(k, pid)
  {
    ThreadPlace(k, place, pid, main, tb, i);
    assert QueueOk(k, place, Running) && tb.tids[i] in At(k, Running);
    assert tb.dinner.Runnable(i) && Lives(k, pid, tb.tids[i]) && ProcessOk(k, pid);
    ForksAfter(tb.dinner, i);
    var t := TrapFor(tb.dinner, i);
    if t.id < Made(k, pid) { assert IsFork(k.procs[pid], tb, t.id); }
  }

  /** What the call does to the mutexes is what the step does to the forks. */
  lemma OwnTrap(k: Kernel, place: Places, pid: Pid, main: Tid, tb: Table, i: nat)
    requires KernelOk(k, place) && Serves(k, pid, main, tb) && k.HasCurrent()
    requires i < |tb.tids| && k.current == Some(tb.tids[i]) && tb.dinner.phils[i].pc != P.Finished
    requires tb.dinner.Runnable(i) && k.CurrentPid() == pid && k.Legal(TrapFor(tb.dinner, i))
             && TrapFor(tb.dinner, i).id < Made(k, pid)
    ensures Serves(k.Handle(TrapFor(tb.dinner, i)), pid, main, tb.(dinner := tb.dinner.Step(i)))
    ensures Made(k.Handle(TrapFor(tb.dinner, i)), pid) == Made(k, pid)
  {
    ForksAfter(tb.dinner, i);
    assert ProcessOk(k, pid) && IsFork(k.procs[pid], tb, TrapFor(tb.dinner, i).id);
    MutexTrap(k, TrapFor(tb.dinner, i));
    ThreadsGrow(k, TrapFor(tb.dinner, i));
    ServedAfterStep(k, k.Handle(TrapFor(tb.dinner, i)), pid, main, tb, i);
  }

  lemma ServedAfterStep(k: Kernel, k': Kernel, pid: Pid, main: Tid, tb: Table, i: nat)
    requires Serves(k, pid, main, tb) && i < |tb.tids| && tb.dinner.Runnable(i)
    requires k'.tasks == k.tasks && k'.tid2pid == k.tid2pid && k.nextTid <= k'.nextTid && pid in k'.procs
    requires !k'.procs[pid].detect && k'.procs[pid].semaphores == [] && |k'.procs[pid].owners| == |k.procs[pid].owners|
    requires var t := TrapFor(tb.dinner, i);
             && (t.MutexLock? || t.MutexUnlock?) && t.id < Made(k, pid) && k.procs[pid].mutexes[t.id].Some?
             && var m := k.procs[pid].mutexes[t.id].value;
                k'.procs[pid].mutexes == k.procs[pid].mutexes[t.id := Some(if t.MutexLock? then m.Lock(tb.tids[i])
                  else m.Unlock())]
    ensures Serves(k', pid, main, tb.(dinner := tb.dinner.Step(i))) && Made(k', pid) == Made(k, pid)
  {
    var s, t, tb' := tb.dinner, TrapFor(tb.dinner, i), tb.(dinner := tb.dinner.Step(i));
    ForksAfter(s, i);
    P.StepKeeps(s, i);
    forall f | 0 <= f < Made(k', pid)
      ensures IsFork(k'.procs[pid], tb', f)
    {
      assert IsFork(k.procs[pid], tb, f);
      if f == t.id { ForkStep(k.procs[pid], k'.procs[pid], tb, i, f); }
    }
    forall j | 0 <= j < |tb.tids| && s.Step(i).phils[j].pc != P.Finished
      ensures Lives(k', pid, tb.tids[j])
    {
      assert Lives(k, pid, tb.tids[j]);
    }
  }

  lemma ForkStep(p: Proc, p': Proc, tb: Table, i: nat, f: nat)
    requires P.Inv(tb.dinner) && tb.dinner.Runnable(i) && i < |tb.tids| && IsFork(p, tb, f)
    requires TrapFor(tb.dinner, i) in {MutexLock(f), MutexUnlock(f)} && f < |p'.mutexes| && f < |p'.owners|
    requires var m := p.mutexes[f].value;
             p'.mutexes[f] == Some(if TrapFor(tb.dinner, i).MutexLock? then m.Lock(tb.tids[i]) else m.Unlock())
    ensures IsFork(p', tb.(dinner := tb.dinner.Step(i)), f)
  {
    var s := tb.dinner;
    ForksAfter(s, i);
    var q, q' := s.forks[f].queue, s.Step(i).forks[f].queue;
    if TrapFor(s, i).MutexLock? && s.forks[f].locked {
      assert q' == q + [i];
      ThreadsPush(tb.tids, q, i);
    } else if TrapFor(s, i).MutexUnlock? && q != [] {
      assert q' == q[1..];
      ThreadsPop(tb.tids, q);
    }
  }

  // ---- the traps of main while it sets the table ----

  /** A new mutex is the next fork. */
  lemma ForkMade(k: Kernel, pid: Pid, main: Tid, tb: Table)
    requires Members(k) && Serves(k, pid, main, tb) && k.HasCurrent() && k.CurrentPid() == pid
    requires Made(k, pid) == |tb.tids| < |tb.dinner.forks|
    ensures Serves(k.Handle(MutexCreate(true)), pid, main, tb)
    ensures Made(k.Handle(MutexCreate(true)), pid) == Made(k, pid) + 1
  {
    var k', p, n := k.Handle(MutexCreate(true)), k.procs[pid], Made(k, pid);
    assert ProcessOk(k, pid);
    forall f | 0 <= f < n
      ensures p.mutexes[f].Some?
    {
      assert IsFork(p, tb, f);
    }
    MutexAdded(k);
    forall f | 0 <= f < n + 1
      ensures IsFork(k'.procs[pid], tb, f)
    {
      if f < n { assert IsFork(p, tb, f); }
    }
    forall i | 0 <= i < |tb.tids| && tb.dinner.phils[i].pc != P.Finished
      ensures Lives(k', pid, tb.tids[i])
    {
      assert Lives(k, pid, tb.tids[i]);
    }
  }

  lemma MutexAdded(k: Kernel)
    requires k.HasCurrent() && |k.CurrentProc().owners| == |k.CurrentProc().mutexes|
    requires forall f :: 0 <= f < |k.CurrentProc().mutexes| ==> k.CurrentProc().mutexes[f].Some?
    ensures var k', p, pid := k.Handle(MutexCreate(true)), k.CurrentProc(), k.CurrentPid();
            && k'.tasks == k.tasks && k'.tid2pid == k.tid2pid && pid in k'.procs
            && k'.procs[pid] == p.(mutexes := p.mutexes + [Some(FREE)], owners := p.owners + [None])
            && k'.ready == k.ready + [k.current.value]
  {
    var p := k.CurrentProc();
    assert FirstFree(p.mutexes) == |p.mutexes|;
  }

  /** A new thread is the next philosopher. */
  lemma PhilosopherMade(k: Kernel, pid: Pid, main: Tid, tb: Table)
    requires Members(k) && Serves(k, pid, main, tb) && k.HasCurrent() && k.CurrentPid() == pid
             && k.current == Some(main)
    requires Made(k, pid) == |tb.tids| + 1
    ensures k.Legal(ThreadCreate) && Serves(k.Handle(ThreadCreate), pid, main, tb.(tids := tb.tids + [k.nextTid]))
    ensures k.Handle(ThreadCreate).procs == k.procs
  {
    var k', t, tb' := k.Handle(ThreadCreate), k.nextTid, tb.(tids := tb.tids + [k.nextTid]);
    assert t in k.tasks ==> ThreadOk(k, t);
    forall f | 0 <= f < Made(k', pid)
      ensures IsFork(k'.procs[pid], tb', f)
    {
      assert IsFork(k.procs[pid], tb, f);
      assert Threads(tb'.tids, tb.dinner.forks[f].queue) == Threads(tb.tids, tb.dinner.forks[f].queue);
    }
    forall i | 0 <= i < |tb'.tids| && tb.dinner.phils[i].pc != P.Finished
      ensures Lives(k', pid, tb'.tids[i])
    {
      if i < |tb.tids| { assert Lives(k, pid, tb.tids[i]); }
    }
  }

  // ---- all other traps ----

  /** Some thread of the process that keeps it alive: main, or a philosopher who has not finished. */
  lemma Somebody(k: Kernel, pid: Pid, main: Tid, tb: Table) returns (u: Tid)
    requires Serves(k, pid, main, tb) && !tb.dinner.AllDone()
    ensures Lives(k, pid, u)
    ensures if SettingUp(k, pid, tb) then u == main
            else exists i :: 0 <= i < |tb.tids| && tb.tids[i] == u && tb.dinner.phils[i].pc != P.Finished
  {
    if SettingUp(k, pid, tb) {
      u := main;
    } else {
      var i :| 0 <= i < |tb.dinner.phils| && tb.dinner.phils[i].pc != P.Finished;
      u := tb.tids[i];
    }
  }

  /** A trap of somebody who takes no part now. */
  lemma OtherTrap(k: Kernel, place: Places, pid: Pid, main: Tid, tb: Table, t: Trap)
    requires KernelOk(k, place) && Serves(k, pid, main, tb) && !tb.dinner.AllDone() && k.HasCurrent() && k.Legal(t)
    requires t == Other || (!Dines(k, tb) && (SettingUp(k, pid, tb) ==> k.current != Some(main)))
    requires k.CurrentPid() == pid ==> Quiet(t)
    ensures Serves(k.Handle(t), pid, main, tb) && Made(k.Handle(t), pid) == Made(k, pid)
  {
    var u := Somebody(k, pid, main, tb);
    if t != Other { NotDining(k, tb); }
    OtherTables(k, pid, u, t);
    forall i | 0 <= i < |tb.tids| && tb.dinner.phils[i].pc != P.Finished
      ensures Lives(k.Handle(t), pid, tb.tids[i])
    {
      assert Lives(k, pid, tb.tids[i]);
      OtherTables(k, pid, tb.tids[i], t);
    }
    ThreadsGrow(k, t);
    forall f | 0 <= f < Made(k, pid)
      ensures IsFork(k.Handle(t).procs[pid], tb, f)
    {
      assert IsFork(k.procs[pid], tb, f);
    }
  }

  /** The running thread is that of a philosopher who has not finished. */
  predicate Dines(k: Kernel, tb: Table) {
    && k.current.Some?
    && var i := Seat(tb.tids, k.current.value);
         i < |tb.tids| && i < |tb.dinner.phils| && tb.dinner.phils[i].pc != P.Finished
  }

  lemma NotDining(k: Kernel, tb: Table)
    requires NoDup(tb.tids) && |tb.tids| <= |tb.dinner.phils| && !Dines(k, tb)
    ensures forall i :: 0 <= i < |tb.tids| && tb.dinner.phils[i].pc != P.Finished ==> k.current != Some(tb.tids[i])
  {
    forall i | 0 <= i < |tb.tids| && tb.dinner.phils[i].pc != P.Finished
      ensures k.current != Some(tb.tids[i])
    {
      SeatOf(tb.tids, i);
    }
  }

  // ---- runs of the kernel ----

  /** What the threads do. A philosopher makes the calls of the program, and calls without effect (reading the clock,
      yielding). Main creates forks and threads in turn, with no other call in between. Other threads of the process do
      not touch its locks, and other processes do what they like, as long as it is allowed. */
  predicate Acts(k: Kernel, pid: Pid, main: Tid, tb: Table, t: Trap)
    requires k.HasCurrent() && tb.dinner.Shape()
  {
    if Dines(k, tb) then t in {Other, TrapFor(tb.dinner, Seat(tb.tids, k.current.value))}
    else if SettingUp(k, pid, tb) && k.current == Some(main) then
      if Made(k, pid) == 0 then t in {Other, MutexCreate(true)}
      else t == if Made(k, pid) == |tb.tids| then MutexCreate(true) else ThreadCreate
    else Allowed(k, t) && (k.CurrentPid() == pid ==> Quiet(t))
  }

  predicate MainActs(k: Kernel, pid: Pid, main: Tid, tb: Table) {
    !Dines(k, tb) && SettingUp(k, pid, tb) && k.current == Some(main)
  }

  predicate Moves(k: Kernel, tb: Table, t: Trap) { Dines(k, tb) && t != Other }

  /** The table after a trap. */
  function NextTable(k: Kernel, pid: Pid, main: Tid, tb: Table, t: Trap): Table
    requires tb.dinner.Shape()
  {
    if Moves(k, tb, t) then tb.(dinner := tb.dinner.Step(Seat(tb.tids, k.current.value)))
    else if MainActs(k, pid, main, tb) && t == ThreadCreate then tb.(tids := tb.tids + [k.nextTid])
    else tb
  }

  predicate Runs(k: Kernel, pid: Pid, main: Tid, tb: Table, ts: seq<Trap>)
    decreases |ts|
  {
    if tb.dinner.AllDone() then AllowedRun(k, ts)
    else
      ts == []
      || (k.FindNext().HasCurrent() ==>
            && tb.dinner.Shape() && Acts(k.FindNext(), pid, main, tb, ts[0])
            && Runs(Step(k, ts[0]), pid, main, NextTable(k.FindNext(), pid, main, tb, ts[0]), ts[1..]))
  }

  /** The table at the end of the run, or when the dinner is over. */
  function TableAfter(k: Kernel, pid: Pid, main: Tid, tb: Table, ts: seq<Trap>): Table
    decreases |ts|
  {
    if ts == [] || tb.dinner.AllDone() || !tb.dinner.Shape() then tb
    else TableAfter(Step(k, ts[0]), pid, main, NextTable(k.FindNext(), pid, main, tb, ts[0]), ts[1..])
  }

  /** The steps of the dinner that a run of the kernel makes, up to its end. */
  function Steps(k: Kernel, pid: Pid, main: Tid, tb: Table, ts: seq<Trap>): seq<nat>
    decreases |ts|
  {
    if ts == [] || tb.dinner.AllDone() || !tb.dinner.Shape() then []
    else (if Moves(k.FindNext(), tb, ts[0]) then [Seat(tb.tids, k.FindNext().current.value)] else [])
         + Steps(Step(k, ts[0]), pid, main, NextTable(k.FindNext(), pid, main, tb, ts[0]), ts[1..])
  }

  /** Main is about to create a fork, and the newest philosopher, who needs it as the second one, is not ahead of main
      in the ready queue unless for its first lock call. */
  ghost predicate Fair(k: Kernel, pid: Pid, main: Tid, tb: Table) {
    var i := |tb.tids| - 1;
    Made(k, pid) == i + 1 && 0 <= i < |tb.dinner.phils| - 1 ==>
      forall a, b ::
        0 <= a < b < |k.ready| && k.ready[a] == tb.tids[i] && k.ready[b] == main ==> tb.dinner.phils[i].pc == P.LockMin
  }

  lemma MainReady(k: Kernel, place: Places, pid: Pid, main: Tid, tb: Table)
    requires KernelOk(k, place) && k.current.None? && Serves(k, pid, main, tb) && SettingUp(k, pid, tb)
    ensures main in k.ready
  {
    WhereItIs(k, place, pid, main, tb, main);
  }

  lemma RunnableReady(k: Kernel, place: Places, pid: Pid, main: Tid, tb: Table, i: nat)
    requires KernelOk(k, place) && k.current.None? && Serves(k, pid, main, tb) && tb.dinner.Runnable(i) && i < |tb.tids|
    ensures tb.tids[i] in k.ready
  {
    ThreadPlace(k, place, pid, main, tb, i);
  }

  /** The fork a philosopher asks for has been created: with the newest philosopher behind main in the queue, main comes
      first. */
  lemma ForkIsThere(k: Kernel, place: Places, pid: Pid, main: Tid, tb: Table, i: nat)
    requires KernelOk(k, place) && k.current.None? && Serves(k, pid, main, tb) && Fair(k, pid, main, tb)
    requires k.ready != [] && i < |tb.tids| && k.ready[0] == tb.tids[i] && tb.dinner.Runnable(i)
    ensures TrapFor(tb.dinner, i).id < Made(k, pid)
  {
    var s, t := tb.dinner, TrapFor(tb.dinner, i);
    ForksAfter(s, i);
    P.Ordered(|s.phils|, i);
    if t.MutexUnlock? {
      assert s.forks[t.id] != FREE;
    } else if i < |s.phils| - 1 && Made(k, pid) == |tb.tids| == i + 1 {
      MainReady(k, place, pid, main, tb);
      var b :| 0 <= b < |k.ready| && k.ready[b] == main;
      assert k.ready[0] == tb.tids[i] && 0 < b;
      assert s.phils[i].pc == P.LockMin;
    }
  }

  /** One round of the loop keeps the tables and the dinner in step, and its call is allowed. */
  lemma RoundServed(k: Kernel, place: Places, pid: Pid, main: Tid, tb: Table, t: Trap)
    requires KernelOk(k, place) && k.current.None? && Serves(k, pid, main, tb) && Fair(k, pid, main, tb)
             && !tb.dinner.AllDone()
    requires k.ready != [] && k.FindNext().HasCurrent() && TreeOk(k) && Acts(k.FindNext(), pid, main, tb, t)
    ensures Allowed(k.FindNext(), t) && k.FindNext().Legal(t)
    ensures Serves(k.FindNext().Handle(t), pid, main, NextTable(k.FindNext(), pid, main, tb, t))
    ensures Moves(k.FindNext(), tb, t) ==> tb.dinner.Runnable(Seat(tb.tids, k.FindNext().current.value))
    ensures Made(k.FindNext().Handle(t), pid) == Made(k, pid) + if MainActs(k.FindNext(), pid, main, tb)
            && t == MutexCreate(true) then 1 else 0
  {
    var k1 := k.FindNext();
    var place1 := FindNextLive(k, place);
    FetchServed(k, pid, main, tb);
    TreeSame(k, k1);
    if Moves(k1, tb, t) {
      MoveServed(k, place, place1, pid, main, tb);
    } else if Dines(k1, tb) {
      OtherTrap(k1, place1, pid, main, tb, t);
    } else if MainActs(k1, pid, main, tb) && t != Other {
      MainServed(k1, pid, main, tb, t);
    } else {
      LegalIfAllowed(k1, t);
      OtherTrap(k1, place1, pid, main, tb, t);
    }
  }

  lemma MoveServed(k: Kernel, place: Places, place1: Places, pid: Pid, main: Tid, tb: Table)
    requires KernelOk(k, place) && k.current.None? && Serves(k, pid, main, tb) && Fair(k, pid, main, tb)
    requires k.ready != [] && k.FindNext().HasCurrent() && !tb.dinner.AllDone()
    requires KernelOk(k.FindNext(), place1) && Serves(k.FindNext(), pid, main, tb)
    requires var i := Seat(tb.tids, k.FindNext().current.value);
             i < |tb.tids| && i < |tb.dinner.phils| && tb.dinner.phils[i].pc != P.Finished
    ensures var k1, i := k.FindNext(), Seat(tb.tids, k.FindNext().current.value);
            && tb.dinner.Runnable(i) && k1.Legal(TrapFor(tb.dinner, i))
            && Serves(k1.Handle(TrapFor(tb.dinner, i)), pid, main, tb.(dinner := tb.dinner.Step(i)))
            && Made(k1.Handle(TrapFor(tb.dinner, i)), pid) == Made(k, pid)
            && TrapFor(tb.dinner, i) != Other
  {
    var i := Seat(tb.tids, k.FindNext().current.value);
    OwnLegal(k.FindNext(), place1, pid, main, tb, i);
    ForkIsThere(k, place, pid, main, tb, i);
    OwnTrap(k.FindNext(), place1, pid, main, tb, i);
  }

  lemma FetchServed(k: Kernel, pid: Pid, main: Tid, tb: Table)
    requires Serves(k, pid, main, tb)
    ensures Serves(k.FindNext(), pid, main, tb) && Made(k.FindNext(), pid) == Made(k, pid)
  {
  }

  lemma MainServed(k: Kernel, pid: Pid, main: Tid, tb: Table, t: Trap)
    requires Members(k) && Serves(k, pid, main, tb) && k.HasCurrent() && SettingUp(k, pid, tb)
             && k.current == Some(main)
    requires !Dines(k, tb) && t != Other && Acts(k, pid, main, tb, t)
    ensures Allowed(k, t) && k.Legal(t) && Serves(k.Handle(t), pid, main, NextTable(k, pid, main, tb, t))
    ensures Made(k.Handle(t), pid) == if t == ThreadCreate then Made(k, pid) else Made(k, pid) + 1
  {
    if t == ThreadCreate { PhilosopherMade(k, pid, main, tb); } else { ForkMade(k, pid, main, tb); }
  }

  /** The order of main and the newest philosopher is kept: what runs goes to the end, what wakes up too. */
  lemma FairKept(k: Kernel, place: Places, kn: Kernel, place': Places, pid: Pid, main: Tid, tb: Table, t: Trap)
    requires KernelOk(k, place) && k.current.None? && Serves(k, pid, main, tb) && Fair(k, pid, main, tb)
             && KernelOk(kn, place')
    requires k.ready != [] && k.FindNext().HasCurrent() && Acts(k.FindNext(), pid, main, tb, t)
             && k.ready[1..] <= kn.ready
    requires Moves(k.FindNext(), tb, t) ==> tb.dinner.Runnable(Seat(tb.tids, k.FindNext().current.value))
    requires Made(kn, pid) == Made(k, pid) + if MainActs(k.FindNext(), pid, main, tb)
             && t == MutexCreate(true) then 1 else 0
    ensures Fair(kn, pid, main, NextTable(k.FindNext(), pid, main, tb, t))
  {
    var k1, tb', i := k.FindNext(), NextTable(k.FindNext(), pid, main, tb, t), |tb.tids| - 1;
    FetchServed(k, pid, main, tb);
    if !MainActs(k1, pid, main, tb) && Made(k, pid) == i + 1 && 0 <= i < |tb.dinner.phils| - 1 {
      assert QueueOk(kn, place', Ready) && NoDup(At(kn, Ready));
      forall a, b | 0 <= a < b < |kn.ready| && kn.ready[a] == tb.tids[i] && kn.ready[b] == main
        ensures tb'.dinner.phils[i].pc == P.LockMin
      {
        NewestKept(k, place, kn.ready, pid, main, tb, t, a, b);
      }
      TableShape(k1, pid, main, tb, t);
    }
  }

  lemma NotFirst(k: Kernel, pid: Pid, main: Tid, tb: Table)
    requires Serves(k, pid, main, tb) && k.ready != [] && k.FindNext().HasCurrent() && k.current.None?
    requires SettingUp(k, pid, tb) && !MainActs(k.FindNext(), pid, main, tb)
    ensures k.ready[0] != main
  {
    FetchServed(k, pid, main, tb);
  }

  lemma TableShape(k: Kernel, pid: Pid, main: Tid, tb: Table, t: Trap)
    requires P.Inv(tb.dinner) && !MainActs(k, pid, main, tb)
    requires Moves(k, tb, t) ==> tb.dinner.Runnable(Seat(tb.tids, k.current.value))
    ensures var tb' := NextTable(k, pid, main, tb, t); tb'.tids == tb.tids && |tb'.dinner.phils| == |tb.dinner.phils|
  {
    if Moves(k, tb, t) { ForksAfter(tb.dinner, Seat(tb.tids, k.current.value)); }
  }

  /** Whoever is ahead of main afterwards was so before, further back. */
  lemma AheadBefore(k: Kernel, tb: Table, main: Tid, ready': seq<Tid>, a: nat, b: nat)
    requires k.ready != [] && k.ready[0] != main && main in k.ready && k.ready[1..] <= ready' && NoDup(ready')
    requires a < b < |ready'| && ready'[b] == main
    ensures b + 1 < |k.ready| && k.ready[b + 1] == main && k.ready[a + 1] == ready'[a]
  {
    var c :| 0 <= c < |k.ready| && k.ready[c] == main;
    assert ready'[c - 1] == k.ready[1..][c - 1] == main;
    assert k.ready[1..][a] == ready'[a];
  }

  /** The newest philosopher, in the ready queue but not at its head, keeps its place in the program. */
  lemma NewestWaits(k: Kernel, place: Places, pid: Pid, main: Tid, tb: Table, t: Trap, a: nat)
    requires KernelOk(k, place) && k.current.None? && Serves(k, pid, main, tb) && |tb.tids| > 0 && k.ready != []
    requires 0 < a < |k.ready| && k.ready[a] == tb.tids[|tb.tids| - 1] && k.FindNext().HasCurrent()
    requires tb.dinner.phils[|tb.tids| - 1].pc == P.LockMin
    requires Moves(k.FindNext(), tb, t) ==> tb.dinner.Runnable(Seat(tb.tids, k.FindNext().current.value))
    ensures NextTable(k.FindNext(), pid, main, tb, t).dinner.phils[|tb.tids| - 1] == tb.dinner.phils[|tb.tids| - 1]
  {
    var place1 := FindNextLive(k, place);
    assert QueueOk(k, place, Ready) && NoDup(At(k, Ready));
    if Moves(k.FindNext(), tb, t) {
      ForksAfter(tb.dinner, Seat(tb.tids, k.FindNext().current.value));
    }
  }

  /** The newest philosopher, ahead of main in the next ready queue, is still before its first lock call. */
  lemma NewestKept(k: Kernel, place: Places, ready': seq<Tid>, pid: Pid, main: Tid, tb: Table, t: Trap, a: nat, b: nat)
    requires KernelOk(k, place) && k.current.None? && Serves(k, pid, main, tb) && Fair(k, pid, main, tb)
    requires k.ready != [] && k.FindNext().HasCurrent() && k.ready[1..] <= ready' && NoDup(ready')
    requires SettingUp(k, pid, tb) && !MainActs(k.FindNext(), pid, main, tb)
    requires Made(k, pid) == |tb.tids| && 0 < |tb.tids| < |tb.dinner.phils|
    requires Moves(k.FindNext(), tb, t) ==> tb.dinner.Runnable(Seat(tb.tids, k.FindNext().current.value))
    requires a < b < |ready'| && ready'[a] == tb.tids[|tb.tids| - 1] && ready'[b] == main
    ensures var phils := NextTable(k.FindNext(), pid, main, tb, t).dinner.phils;
            |tb.tids| <= |phils| && phils[|tb.tids| - 1].pc == P.LockMin
  {
    NotFirst(k, pid, main, tb);
    MainReady(k, place, pid, main, tb);
    AheadBefore(k, tb, main, ready', a, b);
    NewestWaits(k, place, pid, main, tb, t, a + 1);
    TableShape(k.FindNext(), pid, main, tb, t);
  }

  /** One round of the loop: allowed, and everything holds again. */
  lemma DinnerKept(k: Kernel, place: Places, b: Books, pid: Pid, main: Tid, tb: Table, t: Trap)
    returns (place': Places, b': Books)
    requires Good(k, place, b) && Serves(k, pid, main, tb) && Fair(k, pid, main, tb) && !tb.dinner.AllDone()
    requires k.ready != [] && (k.FindNext().HasCurrent() ==> Acts(k.FindNext(), pid, main, tb, t))
    ensures k.FindNext().HasCurrent() && Allowed(k.FindNext(), t) && Good(Step(k, t), place', b')
    ensures Serves(Step(k, t), pid, main, NextTable(k.FindNext(), pid, main, tb, t))
    ensures Fair(Step(k, t), pid, main, NextTable(k.FindNext(), pid, main, tb, t))
    ensures Moves(k.FindNext(), tb, t) ==> tb.dinner.Runnable(Seat(tb.tids, k.FindNext().current.value))
  {
    var place1 := FindNextLive(k, place);
    RoundServed(k, place, pid, main, tb, t);
    place', b' := StepKeeps(k, place, b, t);
    ReadyGrows(k.FindNext(), t);
    FairKept(k, place, Step(k, t), place', pid, main, tb, t);
  }

  /** The dinner is over; or main has forks or threads to create and will be run; or a philosopher who is not blocked
      will be run. */
  ghost predicate GoesOn(k: Kernel, pid: Pid, main: Tid, tb: Table) {
    tb.dinner.AllDone()
    || (Serves(k, pid, main, tb)
        && if SettingUp(k, pid, tb) then main in k.ready
           else exists i: nat :: tb.dinner.Runnable(i) && i < |tb.tids| && tb.tids[i] in k.ready)
  }

  lemma NobodyStuck(k: Kernel, place: Places, pid: Pid, main: Tid, tb: Table)
    requires KernelOk(k, place) && k.current.None? && Serves(k, pid, main, tb)
    ensures GoesOn(k, pid, main, tb) && (!tb.dinner.AllDone() ==> k.ready != [])
  {
    if !tb.dinner.AllDone() {
      if SettingUp(k, pid, tb) {
        MainReady(k, place, pid, main, tb);
      } else {
        P.NoDeadlock(tb.dinner);
        var i :| tb.dinner.Runnable(i);
        RunnableReady(k, place, pid, main, tb, i);
      }
    }
  }

  lemma ScheduleCons(s: P.State, i: nat, rest: seq<nat>)
    requires s.Shape() && s.Runnable(i) && P.Schedule(s.Step(i), rest)
    ensures P.Schedule(s, [i] + rest) && P.After(s, [i] + rest) == P.After(s.Step(i), rest)
  {
    assert ([i] + rest)[1..] == rest;
  }

  /** What one round of the loop adds to the steps of the dinner. */
  lemma RoundCounted(k: Kernel, pid: Pid, main: Tid, tb: Table, ts: seq<Trap>, rest: seq<nat>)
    requires tb.dinner.Shape() && !tb.dinner.AllDone() && ts != []
    requires Moves(k.FindNext(), tb, ts[0]) ==> tb.dinner.Runnable(Seat(tb.tids, k.FindNext().current.value))
    requires var k', tb' := Step(k, ts[0]), NextTable(k.FindNext(), pid, main, tb, ts[0]);
             && tb'.dinner.Shape() && rest == Steps(k', pid, main, tb', ts[1..]) && P.Schedule(tb'.dinner, rest)
             && TableAfter(k', pid, main, tb', ts[1..]).dinner == P.After(tb'.dinner, rest)
    ensures P.Schedule(tb.dinner, Steps(k, pid, main, tb, ts))
    ensures TableAfter(k, pid, main, tb, ts).dinner == P.After(tb.dinner, Steps(k, pid, main, tb, ts))
  {
    if Moves(k.FindNext(), tb, ts[0]) {
      ScheduleCons(tb.dinner, Seat(tb.tids, k.FindNext().current.value), rest);
    } else {
      assert [] + rest == rest;
    }
  }

  /** In every run all calls are allowed, the philosophers' threads carry out a schedule of the dinner, and nothing is
      stuck until it is over. */
  lemma {:induction false} DinnerRuns(k: Kernel, place: Places, b: Books, pid: Pid, main: Tid, tb: Table, ts: seq<Trap>)
    requires Good(k, place, b) && Serves(k, pid, main, tb) && Fair(k, pid, main, tb) && Runs(k, pid, main, tb, ts)
    ensures AllowedRun(k, ts) && GoesOn(After(k, ts), pid, main, TableAfter(k, pid, main, tb, ts))
    ensures P.Schedule(tb.dinner, Steps(k, pid, main, tb, ts))
    ensures TableAfter(k, pid, main, tb, ts).dinner == P.After(tb.dinner, Steps(k, pid, main, tb, ts))
    decreases |ts|
  {
    NobodyStuck(k, place, pid, main, tb);
    if !tb.dinner.AllDone() && ts != [] {
      var place', b' := DinnerKept(k, place, b, pid, main, tb, ts[0]);
      var tb' := NextTable(k.FindNext(), pid, main, tb, ts[0]);
      DinnerRuns(Step(k, ts[0]), place', b', pid, main, tb', ts[1..]);
      RoundCounted(k, pid, main, tb, ts, Steps(Step(k, ts[0]), pid, main, tb', ts[1..]));
    }
  }

  /** The dinner from boot. Process 0 is the program, thread 0 its main thread: no call of a philosopher or of main
      fails, at most as many lock calls happen as there is work, nothing is stuck before all have finished, and
      neighbours never eat at the same time. */
  lemma DinnerFromBoot(n: nat, rounds: nat, ts: seq<Trap>)
    requires n >= 2 && rounds > 0 && Runs(Boot(), 0, 0, Table([], P.Start(n, rounds)), ts)
    ensures var tb := Table([], P.Start(n, rounds));
            var tb' := TableAfter(Boot(), 0, 0, tb, ts);
            && AllowedRun(Boot(), ts) && Safe(Boot(), ts) && GoesOn(After(Boot(), ts), 0, 0, tb')
            && |Steps(Boot(), 0, 0, tb, ts)| <= P.Work(tb.dinner.phils)
            && forall i :: 0 <= i < |tb'.dinner.phils| && tb'.dinner.phils[i].pc == P.UnlockMax ==>
                 |tb'.dinner.phils| >= 2 && tb'.dinner.phils[P.Right(|tb'.dinner.phils|, i)].pc != P.UnlockMax
  {
    var tb := Table([], P.Start(n, rounds));
    var place, b := BootGood();
    BootIs();
    P.StartInv(n, rounds);
    DinnerRuns(Boot(), place, b, 0, 0, tb, ts);
    var place', b' := RunKeeps(Boot(), place, b, ts);
    P.DinnerCorrect(n, rounds, Steps(Boot(), 0, 0, tb, ts));
  }

  /** The kernel after the first fork, and after the first philosopher's thread. */
  function OneFork(): Kernel {
    Kernel({0}, [0], None, map[0 := 0], map[0 := NewRel(USIZE_MAX).AddThread(0)],
      map[0 := Proc([], [Some(FREE)], [None], [], false)], 1, 1)
  }

  function OneThread(): Kernel {
    OneFork().(tasks := {0, 1}, ready := [1, 0], tid2pid := map[0 := 0, 1 := 0],
               rel := map[0 := NewRel(USIZE_MAX).AddThread(0).AddThread(1)], nextTid := 2)
  }

  function OneHeld(): Kernel {
    OneThread().(ready := [0, 1], procs := map[0 := Proc([], [Some(MutexState(true, []))], [Some(1)], [], false)])
  }

  lemma FirstFork()
    ensures Boot().FindNext().HasCurrent() && Step(Boot(), MutexCreate(true)) == OneFork()
  {
    BootIs();
    var k := Boot().FindNext();
    var p := Proc([], [Some(FREE)], [None], [], false);
    assert Fill([], 0, Some(FREE)) == [Some(FREE)] && Fill<Option<Tid>>([], 0, None) == [None];
    assert k.Syscall(MutexCreate(true)).0 == k.PutProc(p);
    assert k.PutProc(p).procs == map[0 := p];
  }

  lemma FirstThread()
    ensures OneFork().FindNext().HasCurrent() && Step(OneFork(), ThreadCreate) == OneThread()
  {
    var k := OneFork().FindNext();
    assert k.ready == [];
    assert k.Syscall(ThreadCreate).0.tid2pid == map[0 := 0, 1 := 0];
    assert k.Syscall(ThreadCreate).0.ready == [1];
  }

  lemma FirstLock()
    ensures OneThread().FindNext().HasCurrent() && OneThread().FindNext().Legal(MutexLock(0))
    ensures Step(OneThread(), MutexLock(0)) == OneHeld()
  {
    var k := OneThread().FindNext();
    assert k.ready == [0] && k.current == Some(1);
    var p := Proc([], [Some(MutexState(true, []))], [Some(1)], [], false);
    assert [Some(FREE)][0 := Some(FREE.Lock(1))] == p.mutexes && [None][0 := Some(1)] == p.owners;
    assert k.Syscall(MutexLock(0)).0 == k.PutProc(p);
    assert k.PutProc(p).procs == map[0 := p];
  }

  /** A run of three traps from boot: a fork, a thread, and the thread's first lock. */
  lemma FirstThree()
    ensures var ts := [MutexCreate(true), ThreadCreate, MutexLock(0)];
            Safe(Boot(), ts) && After(Boot(), ts) == OneHeld()
  {
    FirstFork();
    FirstThread();
    FirstLock();
    RunCons(OneThread(), MutexLock(0), []);
    RunCons(OneFork(), ThreadCreate, [MutexLock(0)]);
    RunCons(Boot(), MutexCreate(true), [ThreadCreate, MutexLock(0)]);
  }

  /** Without the first-in-first-out queue a call can fail: when main has made one fork and one thread, and
      philosopher 0 has its first fork (see `FirstThree`), its second fork does not exist before main runs
      again. */
  lemma TooEarly()
    ensures OneHeld().ready == [0, 1] && P.Higher(5, 0) == 1
    ensures var k := OneHeld().(ready := [1, 0]).FindNext(); k.HasCurrent() && !k.Legal(MutexLock(1))
  {
    assert OneHeld().(ready := [1, 0]).FindNext().current == Some(1);
  }
}
