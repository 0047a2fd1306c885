/** Every live thread is in exactly one place, over every run of the kernel. */
module KernelInvariants {
  import opened Options
  import opened Sync
  import opened ProcThreadRels
  import opened KernelStates
  import opened Sequences

  /** Where a thread can be: running, ready, or waiting for one object of one process. */
  datatype Place =
    Running | Ready | OnMutex(pid: Pid, id: nat) | OnSemaphore(pid: Pid, id: nat) | OnCondvar(pid: Pid, id: nat)

  /** The queue of threads at a place. */
  function At(k: Kernel, pl: Place): seq<Tid> {
    match pl
    case Running => if k.current.None? then [] else [k.current.value]
    case Ready => k.ready
    case OnMutex(pid, id) =>
      if pid in k.procs && id < |k.procs[pid].mutexes| && k.procs[pid].mutexes[id].Some?
      then k.procs[pid].mutexes[id].value.queue else []
    case OnSemaphore(pid, id) =>
      if pid in k.procs && id < |k.procs[pid].semaphores| && k.procs[pid].semaphores[id].Some?
      then k.procs[pid].semaphores[id].value.queue else []
    case OnCondvar(pid, id) =>
      if pid in k.procs && id < |k.procs[pid].condvars| && k.procs[pid].condvars[id].Some?
      then k.procs[pid].condvars[id].value else []
  }

  type Places = map<Tid, Place>

  /** Queue `pl` lists, once each, exactly the threads whose place is `pl`. */
  ghost predicate QueueOk(k: Kernel, place: Places, pl: Place) {
    NoDup(At(k, pl)) && forall t :: t in At(k, pl) <==> t in place && place[t] == pl
  }

  /** The queues, put together, list every live thread exactly once. */
  ghost predicate Placed(k: Kernel, place: Places) {
    place.Keys == k.tasks && forall pl {:trigger At(k, pl)} :: QueueOk(k, place, pl)
  }

  /** Reading `Placed`: one thread cannot be at two positions, every live thread has one, and only live threads do. */
  lemma ExactlyOnePlace(k: Kernel, place: Places, t: Tid)
    requires Placed(k, place)
    ensures t in k.tasks <==> exists pl :: t in At(k, pl)
    ensures forall pl, pl', i, j ::
              0 <= i < |At(k, pl)| && 0 <= j < |At(k, pl')| && At(k, pl)[i] == t && At(k, pl')[j] == t ==>
                pl == pl' && i == j
  {
    if t in k.tasks {
      assert QueueOk(k, place, place[t]);
      assert t in At(k, place[t]);
    }
    forall pl | t in At(k, pl)
      ensures t in k.tasks
    {
      assert QueueOk(k, place, pl);
    }
    forall pl, pl', i, j | 0 <= i < |At(k, pl)| && 0 <= j < |At(k, pl')| && At(k, pl)[i] == t && At(k, pl')[j] == t
      ensures pl == pl' && i == j
    {
      assert QueueOk(k, place, pl) && QueueOk(k, place, pl');
      assert t in At(k, pl) && t in At(k, pl');
    }
  }

  // ---- moving one thread ----

  /** From k to k' thread t moves from one queue to the end of another; all other queues stay. */
  ghost predicate Moved(k: Kernel, k': Kernel, t: Tid, from: Place, to: Place) {
    && k'.tasks == k.tasks && from != to
    && (exists i :: 0 <= i < |At(k, from)| && At(k, from)[i] == t && At(k', from) == Without(At(k, from), i))
    && At(k', to) == At(k, to) + [t]
    && forall pl {:trigger At(k', pl)} :: pl != from && pl != to ==> At(k', pl) == At(k, pl)
  }

  lemma MovePlaced(k: Kernel, k': Kernel, place: Places, t: Tid, from: Place, to: Place)
    requires Placed(k, place) && Moved(k, k', t, from, to)
    ensures Placed(k', place[t := to]) && t in place && place[t] == from
  {
    var i :| 0 <= i < |At(k, from)| && At(k, from)[i] == t && At(k', from) == Without(At(k, from), i);
    assert QueueOk(k, place, from) && t in At(k, from);
    var place' := place[t := to];
    forall pl
      ensures QueueOk(k', place', pl)
    {
      assert QueueOk(k, place, pl);
      if pl == from {
        RemoveOne(At(k, from), i);
      } else if pl == to {
        AppendOne(At(k, to), t);
      }
    }
  }

  lemma RemoveOne(q: seq<Tid>, i: nat)
    requires NoDup(q) && i < |q|
    ensures NoDup(Without(q, i)) && forall t :: t in Without(q, i) <==> t in q && t != q[i]
  {
    var r := Without(q, i);
    forall t
      ensures t in r <==> t in q && t != q[i]
    {
      if t in q && t != q[i] {
        var j :| 0 <= j < |q| && q[j] == t;
        assert r[if j < i then j else j - 1] == t;
      }
    }
  }

  lemma AppendOne(q: seq<Tid>, t: Tid)
    requires NoDup(q) && t !in q
    ensures NoDup(q + [t]) && forall u :: u in q + [t] <==> u in q || u == t
  {
  }

  /** Queues that are all the same hold the same threads. */
  lemma SamePlaced(k: Kernel, k': Kernel, place: Places)
    requires Placed(k, place) && k'.tasks == k.tasks
    requires forall pl {:trigger At(k', pl)} :: At(k', pl) == At(k, pl)
    ensures Placed(k', place)
  {
    forall pl
      ensures QueueOk(k', place, pl)
    {
      assert QueueOk(k, place, pl);
    }
  }

  // ---- the invariant ----

  /** Queues fit their counters, the owner field is set exactly while the mutex is locked, and nobody waits on a
      condition variable itself. */
  predicate ProcOk(p: Proc) {
    && |p.owners| == |p.mutexes|
    && (forall i :: 0 <= i < |p.mutexes| ==> (p.owners[i].Some? <==> p.mutexes[i].Some? && p.mutexes[i].value.locked))
    && (forall i :: 0 <= i < |p.mutexes| && p.mutexes[i].Some? ==> p.mutexes[i].value.Valid())
    && (forall i :: 0 <= i < |p.semaphores| && p.semaphores[i].Some? ==> p.semaphores[i].value.Valid())
    && (forall i :: 0 <= i < |p.condvars| && p.condvars[i].Some? ==> p.condvars[i].value == [])
  }

  /** The process for whose objects a thread at this place waits. */
  function Waits(pl: Place): Option<Pid> {
    match pl
    case OnMutex(pid, _) => Some(pid)
    case OnSemaphore(pid, _) => Some(pid)
    case OnCondvar(pid, _) => Some(pid)
    case _ => None
  }

  predicate ThreadOk(k: Kernel, t: Tid) {
    t < k.nextTid && t in k.tid2pid && k.tid2pid[t] in k.rel && t in k.rel[k.tid2pid[t]].threads
  }

  predicate ProcessOk(k: Kernel, p: Pid) {
    && p < k.nextPid && p in k.rel && p in k.procs && ProcOk(k.procs[p])
    && k.rel[p].threads != [] && NoDup(k.rel[p].threads)
    && forall i :: 0 <= i < |k.rel[p].threads| ==>
         k.rel[p].threads[i] in k.tid2pid && k.tid2pid[k.rel[p].threads[i]] == p
  }

  ghost predicate Members(k: Kernel) {
    && k.tid2pid.Keys == k.tasks && k.procs.Keys == k.rel.Keys
    && (forall t {:trigger ThreadOk(k, t)} :: t in k.tasks ==> ThreadOk(k, t))
    && (forall p {:trigger ProcessOk(k, p)} :: p in k.rel ==> ProcessOk(k, p))
  }

  /** Threads wait for objects of their own process only. */
  ghost predicate WaitsAtHome(k: Kernel, place: Places) {
    forall t :: t in place && t in k.tid2pid && Waits(place[t]).Some? ==> k.tid2pid[t] == Waits(place[t]).value
  }

  ghost predicate KernelOk(k: Kernel, place: Places) {
    Placed(k, place) && Members(k) && WaitsAtHome(k, place)
  }

  /** The ready queue holds live threads only, so fetching fails only when it is empty. */
  lemma FindNextLive(k: Kernel, place: Places) returns (place': Places)
    requires KernelOk(k, place) && k.current.None? && k.ready != []
    ensures k.FindNext().current == Some(k.ready[0]) && k.FindNext().HasCurrent()
    ensures place' == place[k.ready[0] := Running] && KernelOk(k.FindNext(), place')
  {
    var t := k.ready[0];
    assert QueueOk(k, place, Ready);
    assert t in At(k, Ready) && ThreadOk(k, t) && ProcessOk(k, k.tid2pid[t]);
    place' := place[t := Running];
    Fetched(k);
    MovePlaced(k, k.FindNext(), place, t, Ready, Running);
    MembersSame(k, k.FindNext());
  }

  lemma Fetched(k: Kernel)
    requires k.current.None? && k.ready != [] && k.ready[0] in k.tasks
    ensures Moved(k, k.FindNext(), k.ready[0], Ready, Running)
  {
    assert At(k.FindNext(), Ready) == Without(At(k, Ready), 0);
    assert At(k.FindNext(), Running) == At(k, Running) + [k.ready[0]];
  }

  /** Membership depends on the tables only. */
  lemma MembersSame(k: Kernel, k': Kernel)
    requires Members(k)
    requires k'.tasks == k.tasks && k'.tid2pid == k.tid2pid && k'.rel == k.rel && k'.procs.Keys == k.procs.Keys
    requires k.nextTid <= k'.nextTid && k.nextPid <= k'.nextPid
    requires forall p :: p in k.procs && p in k'.procs ==> k'.procs[p] == k.procs[p] || ProcOk(k'.procs[p])
    ensures Members(k')
  {
    forall t | t in k'.tasks ensures ThreadOk(k', t) { assert ThreadOk(k, t); }
    forall p | p in k'.rel ensures ProcessOk(k', p) { assert ProcessOk(k, p); }
  }

  lemma Suspended(k: Kernel, place: Places) returns (place': Places)
    requires KernelOk(k, place) && k.current.Some?
    ensures KernelOk(k.MakeCurrentSuspend(), place') && place' == place[k.current.value := Ready]
  {
    var c, k' := k.current.value, k.MakeCurrentSuspend();
    assert QueueOk(k, place, Running) && c in At(k, Running);
    assert At(k, Running)[0] == c && At(k', Running) == Without(At(k, Running), 0);
    place' := place[c := Ready];
    MovePlaced(k, k', place, c, Running, Ready);
    MembersSame(k, k');
  }

  /** A change to the running process's objects that leaves all queues alone. */
  lemma QuietPut(k: Kernel, place: Places, p: Proc)
    requires KernelOk(k, place) && k.HasCurrent() && ProcOk(p)
    requires forall id :: At(k.PutProc(p), OnMutex(k.CurrentPid(), id)) == At(k, OnMutex(k.CurrentPid(), id))
    requires forall id :: At(k.PutProc(p), OnSemaphore(k.CurrentPid(), id)) == At(k, OnSemaphore(k.CurrentPid(), id))
    requires forall id :: At(k.PutProc(p), OnCondvar(k.CurrentPid(), id)) == At(k, OnCondvar(k.CurrentPid(), id))
    ensures KernelOk(k.PutProc(p), place)
  {
    SamePlaced(k, k.PutProc(p), place);
    MembersSame(k, k.PutProc(p));
  }

  /** The first waiter of a queue of the running process becomes ready. */
  lemma Woken(k: Kernel, place: Places, p: Proc, from: Place, w: Tid)
    requires KernelOk(k, place) && k.HasCurrent() && ProcOk(p) && Waits(from) == Some(k.CurrentPid())
    requires At(k, from) != [] && w == At(k, from)[0] && At(k.PutProc(p), from) == At(k, from)[1..]
    requires forall pl {:trigger At(k.PutProc(p), pl)} ::
             Waits(pl).Some? && pl != from ==> At(k.PutProc(p), pl) == At(k, pl)
    ensures KernelOk(k.PutProc(p).ReEnque(w), place[w := Ready])
  {
    WokenMoved(k, p, from, w);
    MovePlaced(k, k.PutProc(p).ReEnque(w), place, w, from, Ready);
    MembersSame(k, k.PutProc(p).ReEnque(w));
  }

  lemma WokenMoved(k: Kernel, p: Proc, from: Place, w: Tid)
    requires k.HasCurrent() && Waits(from).Some?
    requires At(k, from) != [] && w == At(k, from)[0] && At(k.PutProc(p), from) == At(k, from)[1..]
    requires forall pl {:trigger At(k.PutProc(p), pl)} ::
             Waits(pl).Some? && pl != from ==> At(k.PutProc(p), pl) == At(k, pl)
    ensures Moved(k, k.PutProc(p).ReEnque(w), w, from, Ready)
  {
    var k' := k.PutProc(p).ReEnque(w);
    forall pl {:trigger At(k', pl)}
      ensures pl != Ready ==> At(k', pl) == At(k.PutProc(p), pl)
    {
    }
    assert At(k', from) == Without(At(k, from), 0);
  }

  /** The running thread goes to the end of a queue of its process. */
  lemma Queued(k: Kernel, place: Places, p: Proc, to: Place)
    requires KernelOk(k, place) && k.HasCurrent() && ProcOk(p) && Waits(to) == Some(k.CurrentPid())
    requires At(k.PutProc(p), to) == At(k, to) + [k.current.value]
    requires forall pl {:trigger At(k.PutProc(p), pl)} ::
             Waits(pl).Some? && pl != to ==> At(k.PutProc(p), pl) == At(k, pl)
    ensures KernelOk(k.PutProc(p).MakeCurrentBlocked(), place[k.current.value := to])
  {
    var k' := k.PutProc(p).MakeCurrentBlocked();
    forall pl {:trigger At(k', pl)}
      ensures pl != Running ==> At(k', pl) == At(k.PutProc(p), pl)
    {
    }
    var c := k.current.value;
    assert At(k, Running)[0] == c && At(k', Running) == Without(At(k, Running), 0);
    MovePlaced(k, k', place, c, Running, to);
    MembersSame(k, k');
  }

  // ---- threads and processes come and go ----

  /** A new thread at the end of the ready queue. */
  lemma AddedPlaced(k: Kernel, k': Kernel, place: Places, t: Tid)
    requires Placed(k, place) && t !in k.tasks && k'.tasks == k.tasks + {t}
    requires At(k', Ready) == At(k, Ready) + [t]
    requires forall pl {:trigger At(k', pl)} :: pl != Ready ==> At(k', pl) == At(k, pl)
    ensures Placed(k', place[t := Ready])
  {
    var place' := place[t := Ready];
    assert place'.Keys == k'.tasks;
    forall pl
      ensures QueueOk(k', place', pl)
    {
      assert QueueOk(k, place, pl);
      if pl == Ready { AppendOne(At(k, Ready), t); }
    }
  }

  lemma ThreadCreated(k: Kernel, place: Places)
    requires KernelOk(k, place) && k.HasCurrent()
    ensures KernelOk(k.Syscall(ThreadCreate).0, place[k.nextTid := Ready])
  {
    var t, pid, k' := k.nextTid, k.CurrentPid(), k.Syscall(ThreadCreate).0;
    assert t in k.tasks ==> ThreadOk(k, t);
    AddedPlaced(k, k', place, t);
    forall u | u in k'.tasks ensures ThreadOk(k', u) { assert u != t ==> ThreadOk(k, u); }
    forall p | p in k'.rel
      ensures ProcessOk(k', p)
    {
      assert ProcessOk(k, p);
      if p == pid { AppendOne(k.rel[p].threads, t); }
    }
  }

  lemma Forked(k: Kernel, place: Places)
    requires KernelOk(k, place) && k.HasCurrent() && k.Legal(Fork)
    ensures KernelOk(k.Syscall(Fork).0, place[k.nextTid := Ready])
  {
    assert k.nextTid in k.tasks ==> ThreadOk(k, k.nextTid);
    assert k.nextPid in k.rel ==> ProcessOk(k, k.nextPid);
    ForkShape(k);
    ForkedMembers(k, k.Syscall(Fork).0);
    AddedPlaced(k, k.Syscall(Fork).0, place, k.nextTid);
  }

  lemma ForkedMembers(k: Kernel, k': Kernel)
    requires Members(k) && k.HasCurrent() && k.nextTid !in k.tasks && k.nextPid !in k.rel && ForkTo(k, k')
    ensures Members(k')
  {
    ForkedFresh(k, k');
    forall u | u in k.tasks ensures ThreadOk(k', u) { ForkedThread(k, k', u); }
    forall p | p in k.rel ensures ProcessOk(k', p) { assert ProcessOk(k, p); ForkedProcess(k, k', p); }
  }

  lemma ForkedFresh(k: Kernel, k': Kernel)
    requires k.HasCurrent() && ForkTo(k, k')
    ensures ThreadOk(k', k.nextTid) && ProcessOk(k', k.nextPid)
  {
  }

  lemma ForkedThread(k: Kernel, k': Kernel, u: Tid)
    requires Members(k) && k.HasCurrent() && u in k.tasks && k.nextTid !in k.tasks && ForkTo(k, k')
    ensures ThreadOk(k', u)
  {
    assert ThreadOk(k, u);
  }

  lemma ForkedProcess(k: Kernel, k': Kernel, p: Pid)
    requires k.HasCurrent() && ProcessOk(k, p) && p != k.nextPid && ForkTo(k, k')
    requires k.tid2pid.Keys == k.tasks && k.nextTid !in k.tasks
    ensures ProcessOk(k', p)
  {
  }

  /** What fork adds: a process with one thread, listed as a child of the caller's. */
  ghost predicate ForkTo(k: Kernel, k': Kernel)
    requires k.HasCurrent()
  {
    var t, pid := k.nextTid, k.nextPid;
    && k'.tasks == k.tasks + {t} && k'.ready == k.ready + [t] && k'.current == k.current
    && k'.tid2pid == k.tid2pid[t := pid] && k'.procs == k.procs[pid := NEW_PROC]
    && k'.nextTid == t + 1 && k'.nextPid == pid + 1
    && k'.rel.Keys == k.rel.Keys + {pid} && k'.rel[pid] == NewRel(k.CurrentPid()).AddThread(t)
    && (forall p :: p in k.rel ==> k'.rel[p] == if p == k.CurrentPid() then k.rel[p].AddChild(pid) else k.rel[p])
    && (forall pl {:trigger At(k', pl)} :: pl != Ready ==> At(k', pl) == At(k, pl))
  }

  lemma ForkShape(k: Kernel)
    requires k.HasCurrent() && k.Legal(Fork) && k.nextPid !in k.rel && k.nextPid !in k.procs
    ensures ForkTo(k, k.Syscall(Fork).0)
  {
  }

  lemma ReparentShape(rel: map<Pid, RelState>, cs: seq<Pid>)
    ensures Reparent(rel, cs).Keys == rel.Keys
    ensures forall p :: p in rel ==>
              && Reparent(rel, cs)[p].threads == rel[p].threads
                   && Reparent(rel, cs)[p].deadThreads == rel[p].deadThreads
              && Reparent(rel, cs)[p].deadChildren == rel[p].deadChildren
              && (p != 0 ==> Reparent(rel, cs)[p].children == rel[p].children)
              && Reparent(rel, cs)[p].parent == if p in cs then 0 else rel[p].parent
    ensures 0 in rel ==> Reparent(rel, cs)[0].children == rel[0].children + cs
  {
    ReparentOthers(rel, cs);
    ReparentAdopts(rel, cs);
  }

  lemma {:induction false} ReparentOthers(rel: map<Pid, RelState>, cs: seq<Pid>)
    ensures Reparent(rel, cs).Keys == rel.Keys
    ensures forall p :: p in rel ==>
              && Reparent(rel, cs)[p].threads == rel[p].threads
                   && Reparent(rel, cs)[p].deadThreads == rel[p].deadThreads
              && Reparent(rel, cs)[p].deadChildren == rel[p].deadChildren
              && (p != 0 ==> Reparent(rel, cs)[p].children == rel[p].children)
              && Reparent(rel, cs)[p].parent == if p in cs then 0 else rel[p].parent
    decreases |cs|
  {
    if cs != [] {
      ReparentOthers(ReparentOne(rel, cs[0]), cs[1..]);
      assert cs == [cs[0]] + cs[1..];
    }
  }

  lemma {:induction false} ReparentAdopts(rel: map<Pid, RelState>, cs: seq<Pid>)
    ensures 0 in rel ==> 0 in Reparent(rel, cs) && Reparent(rel, cs)[0].children == rel[0].children + cs
    decreases |cs|
  {
    if cs == [] {
      if 0 in rel { assert rel[0].children + cs == rel[0].children; }
    } else {
      ReparentAdopts(ReparentOne(rel, cs[0]), cs[1..]);
      if 0 in rel { assert rel[0].children + cs == (rel[0].children + [cs[0]]) + cs[1..]; }
    }
  }

  /** The kernel after the running thread has ended. */
  lemma ExitShape(k: Kernel, code: int)
    requires k.HasCurrent() && k.CanExit() && k.tid2pid.Keys == k.tasks && k.procs.Keys == k.rel.Keys
    ensures var k', c, pid := k.MakeCurrentExited(code), k.current.value, k.CurrentPid();
            var last := k.rel[pid].DelThread(c, code).threads == [];
            && k'.tasks == k.tasks - {c} && k'.tid2pid == k.tid2pid - {c} && k'.ready == k.ready && k'.current == None
            && k'.nextTid == k.nextTid && k'.nextPid == k.nextPid
            && k'.procs == (if last then k.procs - {pid} else k.procs)
            && k'.rel.Keys == k.rel.Keys - (if last then {pid} else {})
            && (forall p :: p in k'.rel ==>
                  k'.rel[p].threads == if p == pid then k.rel[p].DelThread(c, code).threads else k.rel[p].threads)
  {
    var c, pid := k.current.value, k.CurrentPid();
    if k.rel[pid].DelThread(c, code).threads == [] {
      var rel := k.rel[pid := k.rel[pid].DelThread(c, code)];
      var r := rel - {pid};
      var parent := rel[pid].parent;
      var r' := if parent in r then r[parent := r[parent].DelChild(pid, code)] else r;
      ReparentShape(r', rel[pid].children);
    }
  }

  /** A waiting thread is another one of the same process. */
  lemma WaiterElsewhere(k: Kernel, place: Places, pl: Place, t: Tid)
    requires KernelOk(k, place) && k.HasCurrent() && Waits(pl) == Some(k.CurrentPid()) && t in At(k, pl)
    ensures t in k.rel[k.CurrentPid()].threads && t != k.current.value
  {
    assert QueueOk(k, place, pl) && QueueOk(k, place, Running) && k.current.value in At(k, Running);
    assert ThreadOk(k, t);
  }

  /** Nobody waits for the objects of a process whose last thread is running. */
  lemma NobodyWaits(k: Kernel, place: Places, pl: Place)
    requires KernelOk(k, place) && k.HasCurrent() && Waits(pl) == Some(k.CurrentPid())
    requires k.rel[k.CurrentPid()].DelThread(k.current.value, 0).threads == []
    ensures At(k, pl) == []
  {
    var c, ts := k.current.value, k.rel[k.CurrentPid()].threads;
    assert ProcessOk(k, k.CurrentPid()) && ThreadOk(k, c);
    RemoveOne(ts, Find(ts, c));
    assert forall t :: t in ts ==> t == c;
    if At(k, pl) != [] {
      WaiterElsewhere(k, place, pl, At(k, pl)[0]);
    }
  }

  lemma ExitedPlaced(k: Kernel, place: Places, code: int)
    requires KernelOk(k, place) && k.HasCurrent() && k.CanExit()
    ensures Placed(k.MakeCurrentExited(code), place - {k.current.value})
  {
    var c, k', place' := k.current.value, k.MakeCurrentExited(code), place - {k.current.value};
    ExitShape(k, code);
    forall pl
      ensures QueueOk(k', place', pl)
    {
      assert QueueOk(k, place, pl) && QueueOk(k, place, Running);
      assert c in At(k, Running);
      if k'.procs != k.procs && Waits(pl) == Some(k.CurrentPid()) {
        NobodyWaits(k, place, pl);
      } else if pl != Running {
        assert At(k', pl) == At(k, pl);
      }
    }
  }

  lemma Exited(k: Kernel, place: Places, code: int)
    requires KernelOk(k, place) && k.HasCurrent() && k.CanExit()
    ensures KernelOk(k.MakeCurrentExited(code), place - {k.current.value})
  {
    var k' := k.MakeCurrentExited(code);
    ExitShape(k, code);
    ExitedPlaced(k, place, code);
    forall t | t in k'.tasks ensures ThreadOk(k', t) { ExitedThread(k, code, t); }
    forall p | p in k'.rel ensures ProcessOk(k', p) { ExitedProcess(k, code, p); }
  }

  lemma ExitedThread(k: Kernel, code: int, t: Tid)
    requires Members(k) && k.HasCurrent() && k.CanExit() && t in k.tasks && t != k.current.value
    ensures ThreadOk(k.MakeCurrentExited(code), t)
  {
    var c, pid := k.current.value, k.CurrentPid();
    ExitShape(k, code);
    assert ProcessOk(k, pid) && ThreadOk(k, c) && ThreadOk(k, t);
    RemoveOne(k.rel[pid].threads, Find(k.rel[pid].threads, c));
  }

  lemma ExitedProcess(k: Kernel, code: int, p: Pid)
    requires Members(k) && k.HasCurrent() && k.CanExit() && p in k.MakeCurrentExited(code).rel
    ensures ProcessOk(k.MakeCurrentExited(code), p)
  {
    var c, pid := k.current.value, k.CurrentPid();
    ExitShape(k, code);
    assert ProcessOk(k, p) && ProcessOk(k, pid) && ThreadOk(k, c);
    RemoveOne(k.rel[pid].threads, Find(k.rel[pid].threads, c));
  }

  // ---- one trap ----

  lemma SemaphoreCreated(k: Kernel, place: Places, n: nat)
    requires KernelOk(k, place) && k.HasCurrent()
    ensures KernelOk(k.Syscall(SemaphoreCreate(n)).0, place)
  {
    var p := k.CurrentProc();
    assert ProcessOk(k, k.CurrentPid());
    QuietPut(k, place, p.(semaphores := Fill(p.semaphores, FirstFree(p.semaphores), Some(SemaphoreState(n, [])))));
  }

  lemma MutexCreated(k: Kernel, place: Places, blocking: bool)
    requires KernelOk(k, place) && k.HasCurrent()
    ensures KernelOk(k.Syscall(MutexCreate(blocking)).0, place)
  {
    var p, pid := k.CurrentProc(), k.CurrentPid();
    assert ProcessOk(k, pid);
    var id := FirstFree(p.mutexes);
    var p' := p.(mutexes := Fill(p.mutexes, id, if blocking then Some(FREE) else None),
      owners := Fill(p.owners, id, None));
    CreatedOk(p, blocking);
    forall i
      ensures At(k.PutProc(p'), OnMutex(pid, i)) == At(k, OnMutex(pid, i))
    {
    }
    QuietPut(k, place, p');
    assert k.PutProc(p') == k.Syscall(MutexCreate(blocking)).0;
  }

  lemma CreatedOk(p: Proc, blocking: bool)
    requires ProcOk(p)
    ensures var id := FirstFree(p.mutexes);
            ProcOk(p.(mutexes := Fill(p.mutexes, id, if blocking then Some(FREE) else None),
              owners := Fill(p.owners, id, None)))
  {
  }

  lemma CondvarCreated(k: Kernel, place: Places)
    requires KernelOk(k, place) && k.HasCurrent()
    ensures KernelOk(k.Syscall(CondvarCreate).0, place)
  {
    var p := k.CurrentProc();
    assert ProcessOk(k, k.CurrentPid());
    QuietPut(k, place, p.(condvars := Fill(p.condvars, FirstFree(p.condvars), Some([]))));
  }

  lemma DetectSet(k: Kernel, place: Places, flag: int)
    requires KernelOk(k, place) && k.HasCurrent()
    ensures KernelOk(k.Syscall(EnableDeadlockDetect(flag)).0, place)
  {
    var p := k.CurrentProc();
    assert ProcessOk(k, k.CurrentPid());
    QuietPut(k, place, p.(detect := flag == 1));
  }

  /** Waiting for children or threads touches the lists of the dead only. */
  lemma WaitQuiet(k: Kernel, place: Places, t: Trap)
    requires KernelOk(k, place) && k.HasCurrent() && (t.Wait? || t.WaitTid?)
    ensures KernelOk(k.Syscall(t).0, place)
  {
    var k' := k.Syscall(t).0;
    SamePlaced(k, k', place);
    WaitShape(k, t);
    forall u | u in k'.tasks ensures ThreadOk(k', u) { assert ThreadOk(k, u); }
    forall p | p in k'.rel ensures ProcessOk(k', p) { assert ProcessOk(k, p); }
  }

  lemma WaitShape(k: Kernel, t: Trap)
    requires k.HasCurrent() && (t.Wait? || t.WaitTid?)
    ensures var k' := k.Syscall(t).0;
            && k' == k.(rel := k'.rel) && k'.rel.Keys == k.rel.Keys
            && forall p :: p in k.rel ==> k'.rel[p].threads == k.rel[p].threads
  {
  }

  lemma SemaphoreUpTrap(k: Kernel, place: Places, id: nat) returns (place': Places)
    requires KernelOk(k, place) && k.HasCurrent() && k.Legal(SemaphoreUp(id))
    ensures KernelOk(k.Handle(SemaphoreUp(id)), place')
  {
    var p := k.CurrentProc();
    assert ProcessOk(k, k.CurrentPid());
    var s := p.semaphores[id].value;
    var p' := p.(semaphores := p.semaphores[id := Some(s.Up())]);
    if s.queue == [] {
      QuietPut(k, place, p');
      place' := Suspended(k.PutProc(p'), place);
    } else {
      var pl := OnSemaphore(k.CurrentPid(), id);
      assert At(k, pl) == s.queue;
      Woken(k, place, p', pl, s.queue[0]);
      place' := Suspended(k.PutProc(p').ReEnque(s.queue[0]), place[s.queue[0] := Ready]);
    }
  }

  lemma SemaphoreDownTrap(k: Kernel, place: Places, id: nat) returns (place': Places)
    requires KernelOk(k, place) && k.HasCurrent() && k.Legal(SemaphoreDown(id))
    ensures KernelOk(k.Handle(SemaphoreDown(id)), place')
  {
    var p, c := k.CurrentProc(), k.current.value;
    assert ProcessOk(k, k.CurrentPid());
    var s := p.semaphores[id].value;
    var p' := p.(semaphores := p.semaphores[id := Some(s.Down(c))]);
    if s.count > 0 {
      QuietPut(k, place, p');
      place' := Suspended(k.PutProc(p'), place);
    } else {
      var pl := OnSemaphore(k.CurrentPid(), id);
      assert At(k, pl) == s.queue;
      Queued(k, place, p', pl);
      place' := place[c := pl];
    }
  }

  lemma MutexUnlockTrap(k: Kernel, place: Places, id: nat) returns (place': Places)
    requires KernelOk(k, place) && k.HasCurrent() && k.Legal(MutexUnlock(id))
    ensures KernelOk(k.Handle(MutexUnlock(id)), place')
  {
    var p := k.CurrentProc();
    assert ProcessOk(k, k.CurrentPid());
    var m := p.mutexes[id].value;
    var p' := p.(mutexes := p.mutexes[id := Some(m.Unlock())], owners := p.owners[id := m.Granted()]);
    if m.queue == [] {
      QuietPut(k, place, p');
      place' := Suspended(k.PutProc(p'), place);
    } else {
      var pl := OnMutex(k.CurrentPid(), id);
      assert At(k, pl) == m.queue;
      Woken(k, place, p', pl, m.queue[0]);
      place' := Suspended(k.PutProc(p').ReEnque(m.queue[0]), place[m.queue[0] := Ready]);
    }
  }

  lemma MutexLockTrap(k: Kernel, place: Places, id: nat) returns (place': Places)
    requires KernelOk(k, place) && k.HasCurrent() && k.Legal(MutexLock(id))
    ensures KernelOk(k.Handle(MutexLock(id)), place')
  {
    var p, c := k.CurrentProc(), k.current.value;
    assert ProcessOk(k, k.CurrentPid());
    if p.detect && p.owners[id] == Some(c) {
      place' := Suspended(k, place);
    } else if p.mutexes[id].value.locked {
      LockQueued(k, place, id);
      place' := place[c := OnMutex(k.CurrentPid(), id)];
    } else {
      var p' := p.(mutexes := p.mutexes[id := Some(p.mutexes[id].value.Lock(c))], owners := p.owners[id := Some(c)]);
      QuietPut(k, place, p');
      place' := Suspended(k.PutProc(p'), place);
    }
  }

  lemma LockQueued(k: Kernel, place: Places, id: nat)
    requires KernelOk(k, place) && k.HasCurrent() && k.Legal(MutexLock(id))
    requires k.CurrentProc().mutexes[id].value.locked
    requires !(k.CurrentProc().detect && k.CurrentProc().owners[id] == k.current)
    ensures KernelOk(k.Handle(MutexLock(id)), place[k.current.value := OnMutex(k.CurrentPid(), id)])
  {
    Enqueued(k, place, id);
  }

  /** The running thread goes to the end of the queue of a locked mutex. */
  lemma Enqueued(k: Kernel, place: Places, id: nat)
    requires KernelOk(k, place) && k.HasCurrent() && id < |k.CurrentProc().mutexes|
    requires k.CurrentProc().mutexes[id].Some? && k.CurrentProc().mutexes[id].value.locked
    ensures var p, c := k.CurrentProc(), k.current.value;
            KernelOk(k.PutProc(p.(mutexes := p.mutexes[id := Some(p.mutexes[id].value.Lock(c))])).MakeCurrentBlocked(),
                     place[c := OnMutex(k.CurrentPid(), id)])
  {
    var p, pl := k.CurrentProc(), OnMutex(k.CurrentPid(), id);
    assert ProcessOk(k, k.CurrentPid()) && At(k, pl) == p.mutexes[id].value.queue;
    Queued(k, place, p.(mutexes := p.mutexes[id := Some(p.mutexes[id].value.Lock(k.current.value))]), pl);
  }

  /** The rotation: the first waiter becomes ready, the running thread goes to the end of the mutex's queue. */
  lemma CondvarTrap(k: Kernel, place: Places, t: Trap) returns (place': Places)
    requires KernelOk(k, place) && k.HasCurrent() && k.Legal(t) && t.CondvarWait?
    ensures KernelOk(k.Handle(t), place')
  {
    var p, id := k.CurrentProc(), t.mutex;
    assert ProcessOk(k, k.CurrentPid());
    var m, pl := p.mutexes[id].value, OnMutex(k.CurrentPid(), id);
    assert At(k, pl) == m.queue;
    var p1 := p.(mutexes := p.mutexes[id := Some(m.Unlock())]);
    Woken(k, place, p1, pl, m.queue[0]);
    Enqueued(k.PutProc(p1).ReEnque(m.queue[0]), place[m.queue[0] := Ready], id);
    place' := place[m.queue[0] := Ready][k.current.value := pl];
    WaitIsBoth(k, t);
  }

  lemma WaitIsBoth(k: Kernel, t: Trap)
    requires k.HasCurrent() && k.Legal(t) && t.CondvarWait?
    ensures var p, c, id := k.CurrentProc(), k.current.value, t.mutex;
            var m := p.mutexes[id].value;
            var p1 := p.(mutexes := p.mutexes[id := Some(m.Unlock())]);
            var k1 := k.PutProc(p1).ReEnque(m.queue[0]);
            k.Handle(t) == k1.PutProc(p1.(mutexes := p1.mutexes[id := Some(m.Unlock().Lock(c))])).MakeCurrentBlocked()
  {
    var p, c, id := k.CurrentProc(), k.current.value, t.mutex;
    assert p.mutexes[id := Some(p.mutexes[id].value.Unlock())][id := Some(p.mutexes[id].value.Unlock().Lock(c))]
           == p.mutexes[id := Some(p.mutexes[id].value.Unlock().Lock(c))];
  }

  /** A call that ends with the caller at the end of the ready queue. */
  predicate Returns(t: Trap) {
    t.Fork? || t.ThreadCreate? || t.Wait? || t.WaitTid? || t.CondvarSignal? || t.Other? || t.Exec?
    || t.SemaphoreCreate? || t.MutexCreate? || t.CondvarCreate? || t.EnableDeadlockDetect?
  }

  lemma CallKeeps(k: Kernel, place: Places, t: Trap) returns (place': Places)
    requires KernelOk(k, place) && k.HasCurrent() && k.Legal(t) && Returns(t)
    ensures KernelOk(k.Syscall(t).0, place') && k.Syscall(t).0.current == k.current
  {
    place' := place;
    match t
    case Fork => Forked(k, place); place' := place[k.nextTid := Ready];
    case ThreadCreate => ThreadCreated(k, place); place' := place[k.nextTid := Ready];
    case Wait(_) => WaitQuiet(k, place, t);
    case WaitTid(_) => WaitQuiet(k, place, t);
    case CondvarSignal(_) => assert ProcessOk(k, k.CurrentPid());
    case Other =>
    case Exec => SamePlaced(k, k.Syscall(t).0, place); MembersSame(k, k.Syscall(t).0);
    case SemaphoreCreate(n) => SemaphoreCreated(k, place, n);
    case MutexCreate(b) => MutexCreated(k, place, b);
    case CondvarCreate => CondvarCreated(k, place);
    case EnableDeadlockDetect(flag) => DetectSet(k, place, flag);
  }

  /** The invariant survives every trap of the running thread. */
  lemma TrapKeepsKernel(k: Kernel, place: Places, t: Trap) returns (place': Places)
    requires KernelOk(k, place) && k.HasCurrent() && k.Legal(t)
    ensures KernelOk(k.Handle(t), place') && k.Handle(t).current.None?
  {
    if Returns(t) {
      place' := CallKeeps(k, place, t);
      place' := Suspended(k.Syscall(t).0, place');
    } else {
      place' := BlockingTrap(k, place, t);
    }
  }

  lemma BlockingTrap(k: Kernel, place: Places, t: Trap) returns (place': Places)
    requires KernelOk(k, place) && k.HasCurrent() && k.Legal(t) && !Returns(t)
    ensures KernelOk(k.Handle(t), place') && k.Handle(t).current.None?
  {
    match t
    case Exit(code) => Exited(k, place, code); place' := place - {k.current.value};
    case Unsupported => Exited(k, place, -2); place' := place - {k.current.value};
    case Fault => Exited(k, place, -3); place' := place - {k.current.value};
    case SemaphoreUp(id) => place' := SemaphoreUpTrap(k, place, id);
    case SemaphoreDown(id) => place' := SemaphoreDownTrap(k, place, id);
    case MutexLock(id) => place' := MutexLockTrap(k, place, id);
    case MutexUnlock(id) => place' := MutexUnlockTrap(k, place, id);
    case CondvarWait(_, _) => place' := CondvarTrap(k, place, t);
  }
}
