/** The user program `phil_din_mutex`: N philosophers, each taking the lower-numbered of its two forks first.

    Thinking and eating take time but no fork; they are not steps here. Threads interleave at system calls.
  */
module Philosophers {
  import opened Options
  import opened Sync
  import opened Sequences

  /** What a philosopher does next: lock the first fork, the second, unlock the second, the first; a waiting one
      sleeps in the queue of a fork. */
  datatype Pc = LockMin | AwaitMin | LockMax | AwaitMax | UnlockMax | UnlockMin | Finished

  datatype Philosopher = Philosopher(pc: Pc, rounds: nat)

  function Right(n: nat, i: nat): nat { if i + 1 == n then 0 else i + 1 }

  function Lower(n: nat, i: nat): nat { if i < Right(n, i) then i else Right(n, i) }

  function Higher(n: nat, i: nat): int { i + Right(n, i) - Lower(n, i) }

  /** With two forks or more the two of a philosopher differ, and the second has the higher number. */
  lemma Ordered(n: nat, i: nat)
    requires 2 <= n && i < n
    ensures Lower(n, i) < Higher(n, i) < n
    ensures {Lower(n, i) as int, Higher(n, i)} == {i as int, Right(n, i) as int}
  {
  }

  datatype State = State(forks: seq<MutexState>, phils: seq<Philosopher>) {

    predicate Shape() {
      |forks| == |phils| >= 2
    }

    predicate Runnable(i: nat) { i < |phils| && phils[i].pc !in {AwaitMin, AwaitMax, Finished} }

    predicate AllDone() { forall i :: 0 <= i < |phils| ==> phils[i].pc == Finished }

    function Fork(i: nat, second: bool): nat
      requires Shape() && i < |phils|
    {
      Ordered(|phils|, i);
      if second then Higher(|phils|, i) else Lower(|phils|, i)
    }

    /** A thread that is handed a fork goes on behind its `lock`. */
    function Resume(waking: Option<Tid>): State {
      if waking.None? || waking.value >= |phils| then this
      else
        var p := phils[waking.value];
        this.(phils := phils[waking.value := p.(pc := if p.pc == AwaitMin then LockMax
                                                      else if p.pc == AwaitMax then UnlockMax else p.pc)])
    }

    function Lock(i: nat, f: nat, got: Pc, wait: Pc): State
      requires i < |phils| && f < |forks|
    {
      State(forks[f := forks[f].Lock(i)], phils[i := phils[i].(pc := if forks[f].locked then wait else got)])
    }

    function Unlock(i: nat, f: nat, p: Philosopher): State
      requires i < |phils| && f < |forks|
    {
      State(forks[f := forks[f].Unlock()], phils[i := p]).Resume(forks[f].Granted())
    }

    function Step(i: nat): State
      requires Shape() && i < |phils|
    {
      var p := phils[i];
      match p.pc
      case LockMin => Lock(i, Fork(i, false), LockMax, AwaitMin)
      case LockMax => Lock(i, Fork(i, true), UnlockMax, AwaitMax)
      case UnlockMax => Unlock(i, Fork(i, true), p.(pc := UnlockMin))
      case UnlockMin =>
        var left := if p.rounds > 0 then p.rounds - 1 else 0;
        Unlock(i, Fork(i, false), Philosopher(if left > 0 then LockMin else Finished, left))
      case _ => this
    }
  }

  function Start(n: nat, rounds: nat): State {
    State(seq(n, _ => FREE), seq(n, _ => Philosopher(if rounds > 0 then LockMin else Finished, rounds)))
  }

  // ---- the invariant ----

  /** Philosopher i has fork f in hand. */
  predicate Holds(s: State, i: nat, f: nat)
    requires s.Shape() && i < |s.phils|
  {
    || (f == s.Fork(i, false) && s.phils[i].pc in {LockMax, AwaitMax, UnlockMax, UnlockMin})
    || (f == s.Fork(i, true) && s.phils[i].pc == UnlockMax)
  }

  predicate WaitsFor(s: State, i: nat, f: nat)
    requires s.Shape() && i < |s.phils|
  {
    || (f == s.Fork(i, false) && s.phils[i].pc == AwaitMin)
    || (f == s.Fork(i, true) && s.phils[i].pc == AwaitMax)
  }

  /** A fork is locked exactly when one philosopher holds it, and its queue lists who waits for it. */
  ghost predicate ForkOk(s: State, f: nat)
    requires s.Shape() && f < |s.forks|
  {
    && s.forks[f].Valid() && NoDup(s.forks[f].queue)
    && (forall t: Tid :: t in s.forks[f].queue <==> t < |s.phils| && WaitsFor(s, t, f))
    && (s.forks[f].locked <==> exists i :: 0 <= i < |s.phils| && Holds(s, i, f))
    && (forall i, j :: 0 <= i < |s.phils| && 0 <= j < |s.phils| && Holds(s, i, f) && Holds(s, j, f) ==> i == j)
  }

  ghost predicate Inv(s: State) {
    && s.Shape()
    && (forall f {:trigger ForkOk(s, f)} :: 0 <= f < |s.forks| ==> ForkOk(s, f))
    && (forall i :: 0 <= i < |s.phils| ==> (s.phils[i].pc == Finished <==> s.phils[i].rounds == 0))
  }

  lemma LockKeeps(s: State, i: nat, second: bool)
    requires Inv(s) && i < |s.phils| && s.phils[i].pc == if second then LockMax else LockMin
    ensures Inv(s.Step(i))
  {
    Ordered(|s.phils|, i);
    forall g | 0 <= g < |s.Step(i).forks|
      ensures ForkOk(s.Step(i), g)
    {
      LockFork(s, i, second, g);
    }
  }

  /** A fork that nothing happens to. */
  lemma SameFork(s: State, s': State, g: nat)
    requires s.Shape() && s'.Shape() && |s'.phils| == |s.phils| && g < |s.forks| && ForkOk(s, g)
             && s'.forks[g] == s.forks[g]
    requires forall t :: 0 <= t < |s.phils| ==>
             (Holds(s', t, g) <==> Holds(s, t, g)) && (WaitsFor(s', t, g) <==> WaitsFor(s, t, g))
    ensures ForkOk(s', g)
  {
  }

  lemma LockOthers(s: State, i: nat, second: bool, g: nat, t: nat)
    requires Inv(s) && i < |s.phils| && s.phils[i].pc == (if second then LockMax else LockMin) && g < |s.forks|
             && t < |s.phils|
    ensures s.Step(i).Shape() && |s.Step(i).phils| == |s.phils|
    ensures t != i || g != s.Fork(i, second) ==>
              (Holds(s.Step(i), t, g) <==> Holds(s, t, g)) && (WaitsFor(s.Step(i), t, g) <==> WaitsFor(s, t, g))
  {
    Ordered(|s.phils|, i);
    if t != i { assert s.Step(i).phils[t] == s.phils[t]; }
  }

  lemma LockFork(s: State, i: nat, second: bool, g: nat)
    requires Inv(s) && i < |s.phils| && s.phils[i].pc == (if second then LockMax else LockMin) && g < |s.forks|
    ensures s.Step(i).Shape() && |s.Step(i).phils| == |s.phils| && ForkOk(s.Step(i), g)
  {
    var s' := s.Step(i);
    assert ForkOk(s, g);
    forall t | 0 <= t < |s.phils|
      ensures s'.Shape() && |s'.phils| == |s.phils|
      ensures t != i || g != s.Fork(i, second) ==>
                (Holds(s', t, g) <==> Holds(s, t, g)) && (WaitsFor(s', t, g) <==> WaitsFor(s, t, g))
    {
      LockOthers(s, i, second, g, t);
    }
    if g != s.Fork(i, second) { SameFork(s, s', g); } else { LockedFork(s, s', i, second); }
  }

  /** The fork that is asked for: taken when it is free, queued for when it is not. */
  lemma LockedFork(s: State, s': State, i: nat, second: bool)
    requires Inv(s) && i < |s.phils| && s.phils[i].pc == (if second then LockMax else LockMin) && s' == s.Step(i)
    requires s'.Shape() && |s'.phils| == |s.phils|
    requires forall t :: 0 <= t < |s.phils| && t != i ==>
               (Holds(s', t, s.Fork(i, second)) <==> Holds(s, t, s.Fork(i, second)))
               && (WaitsFor(s', t, s.Fork(i, second)) <==> WaitsFor(s, t, s.Fork(i, second)))
    ensures ForkOk(s', s.Fork(i, second))
  {
    var f := s.Fork(i, second);
    assert ForkOk(s, f);
    Ordered(|s.phils|, i);
    assert !Holds(s, i, f) && !WaitsFor(s, i, f);
    if s.forks[f].locked {
      assert !Holds(s', i, f) && WaitsFor(s', i, f);
      var h :| 0 <= h < |s.phils| && Holds(s, h, f);
      assert Holds(s', h, f);
    } else {
      assert Holds(s', i, f) && !WaitsFor(s', i, f);
      assert forall t :: 0 <= t < |s.phils| ==> !Holds(s, t, f);
    }
  }

  lemma UnlockKeeps(s: State, i: nat, second: bool)
    requires Inv(s) && i < |s.phils| && s.phils[i].pc == if second then UnlockMax else UnlockMin
    ensures Inv(s.Step(i))
  {
    var f, s' := s.Fork(i, second), s.Step(i);
    Ordered(|s.phils|, i);
    assert ForkOk(s, f) && Holds(s, i, f);
    var q := s.forks[f].queue;
    if q != [] { Popped(q); }
    forall g | 0 <= g < |s'.forks|
      ensures ForkOk(s', g)
    {
      UnlockFork(s, i, second, g);
    }
  }

  /** After an unlock: who is not concerned is as before, i has let go, the first waiter has taken over. */
  lemma UnlockShape(s: State, i: nat, second: bool)
    requires Inv(s) && i < |s.phils| && s.phils[i].pc == if second then UnlockMax else UnlockMin
    ensures var s', f := s.Step(i), s.Fork(i, second);
            var q := s.forks[f].queue;
            && s'.Shape() && |s'.phils| == |s.phils| && s'.forks == s.forks[f := s.forks[f].Unlock()]
            && (forall t :: 0 <= t < |s.phils| && t != i && (q == [] || t != q[0]) ==> s'.phils[t] == s.phils[t])
            && (forall g :: g != f ==> (Holds(s', i, g) <==> Holds(s, i, g))) && !Holds(s', i, f)
            && (forall g :: !WaitsFor(s', i, g) && !WaitsFor(s, i, g))
            && (q != [] ==> Woken(s, s', q[0], f) && q[0] != i)
  {
    var f := s.Fork(i, second);
    assert ForkOk(s, f);
    Ordered(|s.phils|, i);
    if s.forks[f].queue != [] {
      Popped(s.forks[f].queue);
      WokenShape(s, i, second);
    }
  }

  /** w waited for fork f and has it now. */
  ghost predicate Woken(s: State, s': State, w: Tid, f: nat) {
    && s.Shape() && s'.Shape() && w < |s.phils| && |s'.phils| == |s.phils|
    && Holds(s', w, f) && WaitsFor(s, w, f)
    && (forall g :: g != f ==> (Holds(s', w, g) <==> Holds(s, w, g)) && !WaitsFor(s, w, g))
    && forall g :: !WaitsFor(s', w, g)
  }

  lemma WokenShape(s: State, i: nat, second: bool)
    requires Inv(s) && i < |s.phils| && s.phils[i].pc == (if second then UnlockMax else UnlockMin)
    requires s.forks[s.Fork(i, second)].queue != []
    ensures var q := s.forks[s.Fork(i, second)].queue; Woken(s, s.Step(i), q[0], s.Fork(i, second)) && q[0] != i
  {
    var f := s.Fork(i, second);
    assert ForkOk(s, f) && s.forks[f].queue[0] in s.forks[f].queue;
    Ordered(|s.phils|, i);
    Ordered(|s.phils|, s.forks[f].queue[0]);
  }

  lemma UnlockFork(s: State, i: nat, second: bool, g: nat)
    requires Inv(s) && i < |s.phils| && s.phils[i].pc == (if second then UnlockMax else UnlockMin) && g < |s.forks|
    ensures s.Step(i).Shape() && |s.Step(i).phils| == |s.phils| && ForkOk(s.Step(i), g)
  {
    var f, s' := s.Fork(i, second), s.Step(i);
    UnlockShape(s, i, second);
    assert ForkOk(s, g) && ForkOk(s, f);
    UnlockOthers(s, s', i, second, g);
    if g != f { SameFork(s, s', g); } else { UnlockedFork(s, s', i, second); }
  }

  /** Who is not concerned holds and waits as before. */
  lemma UnlockOthers(s: State, s': State, i: nat, second: bool, g: nat)
    requires Inv(s) && i < |s.phils| && s.phils[i].pc == (if second then UnlockMax else UnlockMin) && g < |s.forks|
             && s' == s.Step(i)
    requires s'.Shape() && |s'.phils| == |s.phils|
    ensures var q := s.forks[s.Fork(i, second)].queue;
            forall t :: 0 <= t < |s.phils| && (g != s.Fork(i, second) || (t != i && (q == [] || t != q[0]))) ==>
              (Holds(s', t, g) <==> Holds(s, t, g)) && (WaitsFor(s', t, g) <==> WaitsFor(s, t, g))
  {
    UnlockShape(s, i, second);
    var q := s.forks[s.Fork(i, second)].queue;
    forall t | 0 <= t < |s.phils| && (g != s.Fork(i, second) || (t != i && (q == [] || t != q[0])))
      ensures (Holds(s', t, g) <==> Holds(s, t, g)) && (WaitsFor(s', t, g) <==> WaitsFor(s, t, g))
    {
    }
  }

  /** The fork that is put back: it goes to the first waiter, or is free. */
  lemma UnlockedFork(s: State, s': State, i: nat, second: bool)
    requires Inv(s) && i < |s.phils| && s.phils[i].pc == (if second then UnlockMax else UnlockMin) && s' == s.Step(i)
    requires s'.Shape() && |s'.phils| == |s.phils|
    ensures ForkOk(s', s.Fork(i, second))
  {
    var f := s.Fork(i, second);
    UnlockShape(s, i, second);
    UnlockOthers(s, s', i, second, f);
    assert ForkOk(s, f) && Holds(s, i, f);
    if s.forks[f].queue != [] { Popped(s.forks[f].queue); }
  }

  // ---- no deadlock ----

  lemma StepKeeps(s: State, i: nat)
    requires Inv(s) && s.Runnable(i)
    ensures Inv(s.Step(i)) && |s.Step(i).phils| == |s.phils|
  {
    match s.phils[i].pc
    case LockMin => LockKeeps(s, i, false);
    case LockMax => LockKeeps(s, i, true);
    case UnlockMax => UnlockKeeps(s, i, true);
    case UnlockMin => UnlockKeeps(s, i, false);
  }

  /** Behind every fork that is waited for stands a philosopher that can go on: the holder does, or waits for a
      fork with a higher number. */
  lemma {:induction false} HolderRuns(s: State, f: nat) returns (i: nat)
    requires Inv(s) && f < |s.forks| && s.forks[f].queue != []
    ensures s.Runnable(i)
    decreases |s.forks| - f
  {
    assert ForkOk(s, f);
    i :| 0 <= i < |s.phils| && Holds(s, i, f);
    if !s.Runnable(i) {
      Ordered(|s.phils|, i);
      var g := s.Fork(i, true);
      assert ForkOk(s, g) && WaitsFor(s, i, g);
      i := HolderRuns(s, g);
    }
  }

  /** As long as somebody has not finished, somebody is not blocked. */
  lemma NoDeadlock(s: State)
    requires Inv(s) && !s.AllDone()
    ensures exists i :: s.Runnable(i)
  {
    var i :| 0 <= i < |s.phils| && s.phils[i].pc != Finished;
    if !s.Runnable(i) {
      var f := s.Fork(i, s.phils[i].pc == AwaitMax);
      assert ForkOk(s, f) && WaitsFor(s, i, f);
      var j := HolderRuns(s, f);
    }
  }

  /** Two neighbours never eat at the same time. */
  lemma NeighboursExclude(s: State, i: nat)
    requires Inv(s) && i < |s.phils| && s.phils[i].pc == UnlockMax
    ensures s.phils[Right(|s.phils|, i)].pc != UnlockMax
  {
    var n := |s.phils|;
    var r := Right(n, i);
    Ordered(n, i);
    Ordered(n, r);
    assert ForkOk(s, r);
    assert Holds(s, i, r);
    assert s.phils[r].pc == UnlockMax ==> Holds(s, r, r);
  }

  // ---- runs ----

  function PhilosopherWork(p: Philosopher): int {
    match p.pc
    case LockMin => 6 * p.rounds
    case AwaitMin => 6 * p.rounds - 1
    case LockMax => 6 * p.rounds - 2
    case AwaitMax => 6 * p.rounds - 3
    case UnlockMax => 6 * p.rounds - 4
    case UnlockMin => 6 * p.rounds - 5
    case Finished => 0
  }

  function Work(ps: seq<Philosopher>): int { if ps == [] then 0 else PhilosopherWork(ps[0]) + Work(ps[1..]) }

  lemma {:induction false} WorkPut(ps: seq<Philosopher>, i: nat, p: Philosopher)
    requires i < |ps|
    ensures Work(ps[i := p]) == Work(ps) - PhilosopherWork(ps[i]) + PhilosopherWork(p)
  {
    if i == 0 {
      assert ps[0 := p][1..] == ps[1..];
    } else {
      assert ps[i := p][1..] == ps[1..][i - 1 := p];
      WorkPut(ps[1..], i - 1, p);
    }
  }

  lemma {:induction false} WorkNat(ps: seq<Philosopher>)
    requires forall i :: 0 <= i < |ps| && ps[i].pc != Finished ==> ps[i].rounds > 0
    ensures Work(ps) >= 0
  {
    if ps != [] { WorkNat(ps[1..]); }
  }

  lemma StepWork(s: State, i: nat)
    requires Inv(s) && s.Runnable(i)
    ensures 0 <= Work(s.Step(i).phils) < Work(s.phils)
  {
    StepKeeps(s, i);
    WorkNat(s.Step(i).phils);
    var p := s.phils[i];
    if p.pc in {LockMin, LockMax} {
      WorkPut(s.phils, i, s.Step(i).phils[i]);
    } else {
      var f := s.Fork(i, p.pc == UnlockMax);
      var p' := if p.pc == UnlockMax then p.(pc := UnlockMin)
                else Philosopher(if p.rounds > 1 then LockMin else Finished, p.rounds - 1);
      WorkPut(s.phils, i, p');
      ResumeWork(State(s.forks[f := s.forks[f].Unlock()], s.phils[i := p']), s.forks[f].Granted());
    }
  }

  lemma ResumeWork(s: State, waking: Option<Tid>)
    ensures Work(s.Resume(waking).phils) <= Work(s.phils)
  {
    if waking.Some? && waking.value < |s.phils| {
      WorkPut(s.phils, waking.value, s.Resume(waking).phils[waking.value]);
    }
  }

  /** A schedule: at each point the chosen philosopher can run. */
  predicate Schedule(s: State, ids: seq<nat>)
    decreases |ids|
  {
    ids == [] || (s.Shape() && s.Runnable(ids[0]) && Schedule(s.Step(ids[0]), ids[1..]))
  }

  function After(s: State, ids: seq<nat>): State
    decreases |ids|
  {
    if ids == [] || !s.Shape() || ids[0] >= |s.phils| then s else After(s.Step(ids[0]), ids[1..])
  }

  lemma {:induction false} ScheduleKeeps(s: State, ids: seq<nat>)
    requires Inv(s) && Schedule(s, ids)
    ensures Inv(After(s, ids)) && |ids| <= Work(s.phils) - Work(After(s, ids).phils) && 0 <= Work(After(s, ids).phils)
    decreases |ids|
  {
    if ids == [] {
      WorkNat(s.phils);
    } else {
      StepKeeps(s, ids[0]);
      StepWork(s, ids[0]);
      ScheduleKeeps(s.Step(ids[0]), ids[1..]);
    }
  }

  lemma StartInv(n: nat, rounds: nat)
    requires n >= 2
    ensures Inv(Start(n, rounds))
  {
    var s := Start(n, rounds);
    forall f | 0 <= f < n ensures ForkOk(s, f) {
      forall i | 0 <= i < n ensures !Holds(s, i, f) && !WaitsFor(s, i, f) { }
    }
  }

  /** For any number of philosophers, rounds and any schedule: somebody can always go on until all have eaten
      `rounds` times, neighbours never eat together, and the whole dinner ends. */
  lemma DinnerCorrect(n: nat, rounds: nat, ids: seq<nat>)
    requires n >= 2 && Schedule(Start(n, rounds), ids)
    ensures var s := After(Start(n, rounds), ids);
            && |s.phils| >= 2 && |ids| <= Work(Start(n, rounds).phils)
            && (s.AllDone() || exists i :: s.Runnable(i))
            && forall i :: 0 <= i < |s.phils| && s.phils[i].pc == UnlockMax ==>
                 s.phils[Right(|s.phils|, i)].pc != UnlockMax
  {
    StartInv(n, rounds);
    ScheduleKeeps(Start(n, rounds), ids);
    var s := After(Start(n, rounds), ids);
    if !s.AllDone() { NoDeadlock(s); }
    forall i | 0 <= i < |s.phils| && s.phils[i].pc == UnlockMax
      ensures s.phils[Right(|s.phils|, i)].pc != UnlockMax
    {
      NeighboursExclude(s, i);
    }
  }
}
