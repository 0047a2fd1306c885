/** What the proofs about user programs on the kernel share: numbered threads of one process, and the traps that do
    not concern them.
  */
module KernelPrograms {
  import opened Options
  import opened Sync
  import opened ProcThreadRels
  import opened KernelStates
  import opened KernelInvariants
  import opened KernelRuns
  import opened ProcessTrees
  import opened Sequences

  predicate Known(tids: seq<Tid>, q: seq<nat>) { forall j :: 0 <= j < |q| ==> q[j] < |tids| }

  /** The threads behind the numbers in a queue. */
  function Threads(tids: seq<Tid>, q: seq<nat>): (r: seq<Tid>)
    requires Known(tids, q)
    ensures |r| == |q| && forall j :: 0 <= j < |q| ==> r[j] == tids[q[j]]
  {
    if q == [] then [] else Threads(tids, q[..|q| - 1]) + [tids[q[|q| - 1]]]
  }

  lemma ThreadsPush(tids: seq<Tid>, q: seq<nat>, i: nat)
    requires Known(tids, q) && i < |tids|
    ensures Threads(tids, q + [i]) == Threads(tids, q) + [tids[i]]
  {
    assert (q + [i])[..|q|] == q;
  }

  lemma ThreadsPop(tids: seq<Tid>, q: seq<nat>)
    requires Known(tids, q) && q != []
    ensures Threads(tids, q[1..]) == Threads(tids, q)[1..]
  {
  }

  /** Thread t is alive in process pid. */
  predicate Lives(k: Kernel, pid: Pid, t: Tid) { t in k.tasks && t in k.tid2pid && k.tid2pid[t] == pid }

  /** The number of a thread among those of the program, or |tids|. */
  function Seat(tids: seq<Tid>, t: Tid): (i: nat)
    ensures i <= |tids| && (i < |tids| ==> tids[i] == t) && forall j :: 0 <= j < i ==> tids[j] != t
  {
    if tids == [] || tids[0] == t then 0 else 1 + Seat(tids[1..], t)
  }

  lemma SeatOf(tids: seq<Tid>, i: nat)
    requires NoDup(tids) && i < |tids|
    ensures Seat(tids, tids[i]) == i
  {
    var j := Seat(tids, tids[i]);
    assert j <= i;
  }

  /** Calls by which the other threads of the process do not interfere. */
  predicate Quiet(t: Trap) {
    t.Exit? || t.Unsupported? || t.Fault? || t.Other? || t.Fork? || t.Wait? || t.ThreadCreate? || t.WaitTid?
  }

  /** A trap of another thread, quiet if it is of the same process, leaves the process and a live thread u as they
      are. */
  lemma OtherTables(k: Kernel, pid: Pid, u: Tid, t: Trap)
    requires Members(k) && k.HasCurrent() && k.Legal(t) && Lives(k, pid, u) && (k.current != Some(u) || t == Other)
    requires k.CurrentPid() == pid ==> Quiet(t)
    ensures pid in k.procs && Lives(k.Handle(t), pid, u) && pid in k.Handle(t).procs
            && k.Handle(t).procs[pid] == k.procs[pid]
  {
    assert ThreadOk(k, u) && ThreadOk(k, k.current.value) && ProcessOk(k, pid) && ProcessOk(k, k.CurrentPid());
    if Ends(t) {
      OtherEnds(k, pid, u, EndCode(t));
    } else if t.Fork? {
      assert k.nextPid in k.rel ==> ProcessOk(k, k.nextPid);
      ForkShape(k);
    }
  }

  lemma OtherEnds(k: Kernel, pid: Pid, u: Tid, code: int)
    requires Members(k) && k.HasCurrent() && k.CanExit() && Lives(k, pid, u) && k.current != Some(u)
    ensures var k' := k.MakeCurrentExited(code);
            pid in k.procs && Lives(k', pid, u) && pid in k'.procs && k'.procs[pid] == k.procs[pid]
  {
    assert ThreadOk(k, u) && ThreadOk(k, k.current.value) && ProcessOk(k, pid) && ProcessOk(k, k.CurrentPid());
    ExitShape(k, code);
    if k.CurrentPid() == pid { StillThere(k.rel[pid], k.current.value, u, code); }
  }

  lemma StillThere(r: RelState, c: Tid, u: Tid, code: int)
    requires NoDup(r.threads) && u in r.threads && u != c
    ensures r.DelThread(c, code).threads != []
  {
    var i := Find(r.threads, c);
    if i < |r.threads| { RemoveOne(r.threads, i); }
  }

  /** What a mutex call leaves alone, and what it does to its mutex. */
  lemma MutexTrap(k: Kernel, t: Trap)
    requires k.HasCurrent() && k.Legal(t) && (t.MutexLock? || t.MutexUnlock?) && !k.CurrentProc().detect
    requires |k.CurrentProc().owners| == |k.CurrentProc().mutexes|
    ensures var k', pid, m := k.Handle(t), k.CurrentPid(), k.CurrentProc().mutexes[t.id].value;
            && k'.tasks == k.tasks && k'.tid2pid == k.tid2pid && pid in k'.procs
            && !k'.procs[pid].detect && k'.procs[pid].semaphores == k.procs[pid].semaphores
            && |k'.procs[pid].owners| == |k.procs[pid].owners|
            && k'.procs[pid].mutexes
               == k.procs[pid].mutexes[t.id := Some(if t.MutexLock? then m.Lock(k.current.value) else m.Unlock())]
  {
  }

  lemma ThreadsGrow(k: Kernel, t: Trap)
    requires Members(k) && k.HasCurrent() && k.Legal(t)
    ensures k.nextTid <= k.Handle(t).nextTid
  {
    if Ends(t) { ExitShape(k, EndCode(t)); }
  }

  lemma LegalIfAllowed(k: Kernel, t: Trap)
    requires TreeOk(k) && Members(k) && k.HasCurrent() && Allowed(k, t)
    ensures k.Legal(t)
  {
    if Ends(t) { ExitSafe(k); }
  }

  /** A trap only appends to the ready queue. */
  lemma ReadyGrows(k: Kernel, t: Trap)
    requires Members(k) && k.HasCurrent() && k.Legal(t)
    ensures k.ready <= k.Handle(t).ready
  {
    if Ends(t) { ExitShape(k, EndCode(t)); }
  }
}
