/** What the answers of `wait` and `waittid` tell their callers. */
module KernelWaits {
  import opened Options
  import opened Sync
  import opened ProcThreadRels
  import opened KernelStates
  import opened KernelInvariants
  import opened KernelRuns

  /** `waittid` returns the exit code itself. So its -2 means that the thread lives exactly when the thread has not
      ended with code -2, and its -1 that there is no such other thread exactly when it has not ended with -1. */
  lemma WaitTidTells(k: Kernel, target: Tid)
    requires k.HasCurrent()
    ensures var got, ret := ThreadCollectedBy(k, WaitTid(target)), k.Syscall(WaitTid(target)).1;
            var alive := got.None? && target != k.current.value && target in k.rel[k.CurrentPid()].threads;
            && ((ret == -2 <==> alive) <==> got != Some((target, -2)))
            && ((ret == -1 <==> got.None? && !alive) <==> got != Some((target, -1)))
            && (got.Some? ==> got == Some((target, ret)))
  {
    var list := k.rel[k.CurrentPid()].deadThreads;
    if Find(Ids(list), target) < |list| { assert Ids(list)[Find(Ids(list), target)] == target; }
  }

  /** `wait` returns a process id, and in no run is that ambiguous: -2 means that a child in question lives and none
      has ended, -1 that there is none, and everything else is the id of the child whose code is delivered. */
  lemma WaitTells(k: Kernel, child: Pid)
    requires Reached(k) && k.ready != []
    ensures k.FindNext().HasCurrent()
    ensures var k1 := k.FindNext();
            var got, ret, own := CollectedBy(k1, Wait(child)), k1.Syscall(Wait(child)).1,
              k1.rel[k1.CurrentPid()].children;
            && (ret == -2 <==> got.None? && if child == USIZE_MAX then own != [] else child in own)
            && (ret == -1 <==> got.None? && if child == USIZE_MAX then own == [] else child !in own)
            && (got.Some? ==> ret == got.value.0)
  {
    var place, b := ReachedGood(k);
    var place1 := FetchKeeps(k, place, b);
    var k1 := k.FindNext();
    var pid := k1.CurrentPid();
    assert ListOk(ChildLists(k1)[pid], pid, b.procs);
    WaitEffect(k1, Wait(child));
  }

  // ---- both ambiguities occur ----

  /** The state in which the next thread runs after some traps from boot. */
  function Then(ts: seq<Trap>): Kernel { After(Boot(), ts).FindNext() }

  lemma AllowedCons(k: Kernel, t: Trap, ts: seq<Trap>)
    requires k.ready != [] && (k.FindNext().HasCurrent() ==> Allowed(k.FindNext(), t)) && AllowedRun(Step(k, t), ts)
    ensures AllowedRun(k, [t] + ts) && After(k, [t] + ts) == After(Step(k, t), ts)
  {
    assert ([t] + ts)[1..] == ts;
  }

  /** Process 0 after its second thread has been created. */
  function TwoThreads(): Kernel {
    Kernel({0, 1}, [1, 0], None, map[0 := 0, 1 := 0], map[0 := RelState(USIZE_MAX, [], [], [0, 1], [])],
           map[0 := NEW_PROC], 2, 1)
  }

  /** Process 0 after its second thread has ended. */
  function OneDead(code: int): Kernel {
    Kernel({0}, [0], None, map[0 := 0], map[0 := RelState(USIZE_MAX, [], [], [0], [(1, code)])], map[0 := NEW_PROC], 2,
      1)
  }

  lemma SecondThread()
    ensures Boot().FindNext().HasCurrent() && Step(Boot(), ThreadCreate) == TwoThreads()
  {
    BootIs();
    var k := Boot().FindNext();
    assert k.ready == [];
    assert k.Syscall(ThreadCreate).0.tid2pid == map[0 := 0, 1 := 0];
    assert k.Syscall(ThreadCreate).0.ready == [1];
    var rel := TwoThreads().rel[0];
    assert k.rel[0].AddThread(1) == rel && k.rel[0 := rel] == map[0 := rel] && {0} + {1} == {0, 1};
    assert k.Syscall(ThreadCreate).0.rel == TwoThreads().rel;
  }

  lemma SecondEnds(t: Trap)
    requires Ends(t)
    ensures TwoThreads().FindNext().HasCurrent() && Allowed(TwoThreads().FindNext(), t)
    ensures Step(TwoThreads(), t) == OneDead(EndCode(t))
  {
    var k := TwoThreads().FindNext();
    assert k.ready == [0] && k.current == Some(1);
    assert Find([0, 1], 1) == 1 && Without([0, 1], 1) == [0];
    SecondExits(k, EndCode(t));
    SecondExits(k, 0);
  }

  lemma SecondExits(k: Kernel, code: int)
    requires k == TwoThreads().(ready := [0], current := Some(1))
    requires Find([0, 1], 1) == 1 && Without([0, 1], 1) == [0]
    ensures k.HasCurrent() && k.CanExit() && k.rel[0].DelThread(1, code).threads == [0]
    ensures k.MakeCurrentExited(code) == OneDead(code)
  {
    var rel := OneDead(code).rel[0];
    assert k.rel[0].DelThread(1, code) == rel && k.rel[0].DelThread(1, 0).threads == [0];
    assert k.tid2pid - {1} == map[0 := 0] && k.rel[0 := rel] == map[0 := rel] && k.tasks - {1} == {0};
  }

  /** The first thread gets the code of the second one, whatever it is. */
  lemma DeadAnswer(code: int)
    ensures var k := OneDead(code).FindNext(); k.HasCurrent() && 1 !in k.tasks && k.Syscall(WaitTid(1)).1 == code
  {
    assert Ids([(1, code)]) == [1];
    var k := OneDead(code).FindNext();
    assert k.current == Some(0);
  }

  lemma AfterEnd(t: Trap)
    requires Ends(t)
    ensures AllowedRun(Boot(), [ThreadCreate, t]) && Then([ThreadCreate, t]) == OneDead(EndCode(t)).FindNext()
  {
    SecondEnds(t);
    AllowedCons(TwoThreads(), t, []);
    SecondThread();
    AllowedCons(Boot(), ThreadCreate, [t]);
  }

  lemma AfterYield()
    ensures AllowedRun(Boot(), [ThreadCreate, Other]) && Then([ThreadCreate, Other]).HasCurrent()
    ensures var k := Then([ThreadCreate, Other]); 1 in k.tasks && k.Syscall(WaitTid(1)).1 == -2
  {
    var k := TwoThreads().FindNext();
    assert k.ready == [0] && k.current == Some(1);
    AllowedCons(TwoThreads(), Other, []);
    SecondThread();
    AllowedCons(Boot(), ThreadCreate, [Other]);
  }

  /** A second thread that lives looks like one that made an unsupported call. */
  lemma DeadLooksAlive()
    ensures var lives, died := [ThreadCreate, Other], [ThreadCreate, Unsupported];
            && AllowedRun(Boot(), lives) && AllowedRun(Boot(), died) && Then(lives).HasCurrent()
                 && Then(died).HasCurrent()
            && 1 in Then(lives).tasks && 1 !in Then(died).tasks
            && Then(lives).Syscall(WaitTid(1)).1 == Then(died).Syscall(WaitTid(1)).1 == -2
  {
    AfterYield();
    AfterEnd(Unsupported);
    DeadAnswer(-2);
  }

  /** A second thread that ended with code -1 looks like one that never was. */
  lemma DeadLooksUnknown()
    ensures var never, ended := [], [ThreadCreate, Exit(-1)];
            && AllowedRun(Boot(), ended) && Then(never).HasCurrent() && Then(ended).HasCurrent()
            && Then(never).nextTid == 1 && Then(ended).nextTid == 2
            && Then(never).Syscall(WaitTid(1)).1 == Then(ended).Syscall(WaitTid(1)).1 == -1
  {
    AfterEnd(Exit(-1));
    DeadAnswer(-1);
    BootIs();
  }
}
