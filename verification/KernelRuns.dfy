/** Exit codes over whole runs, and the theorem about runs of the kernel. */
module KernelRuns {
  import opened Options
  import opened Sync
  import opened ProcThreadRels
  import opened KernelStates
  import opened KernelInvariants
  import opened ProcessTrees
  import opened Sequences

  // ---- what has become of a process or thread ----

  /** Ids only move forward: from live to dead (with the code, in somebody's list), to collected. */
  datatype Fate = Live | Dead(keeper: Pid, code: int) | Collected

  type Fates = map<nat, Fate>
  type Lists = map<Pid, seq<(nat, int)>>

  /** A list of dead ones: no id twice, all with the code they ended with. */
  ghost predicate ListOk(list: seq<(nat, int)>, keeper: Pid, fates: Fates) {
    NoDup(Ids(list)) && forall i :: 0 <= i < |list| ==>
      list[i].0 in fates && fates[list[i].0] == Dead(keeper, list[i].1)
  }

  ghost predicate LedgerOk(lists: Lists, live: set<nat>, next: nat, fates: Fates) {
    && (forall c :: c in fates ==> c < next)
    && (forall c :: c in live ==> c in fates && fates[c] == Live)
    && (forall p {:trigger ListOk(lists[p], p, fates)} :: p in lists ==> ListOk(lists[p], p, fates))
  }

  /** Every list is as before, or empty, or gone. */
  ghost predicate Kept(lists: Lists, lists': Lists) {
    forall p :: p in lists' ==> lists'[p] == [] || (p in lists && lists'[p] == lists[p])
  }

  lemma LedgerSame(lists: Lists, lists': Lists, live: set<nat>, next: nat, next': nat, fates: Fates)
    requires LedgerOk(lists, live, next, fates) && Kept(lists, lists') && next <= next'
    ensures LedgerOk(lists', live, next', fates)
  {
    forall p | p in lists' ensures ListOk(lists'[p], p, fates) {
      if p in lists { assert ListOk(lists[p], p, fates); }
    }
  }

  lemma LedgerBirth(lists: Lists, lists': Lists, live: set<nat>, next: nat, next': nat, fates: Fates, c: nat)
    requires LedgerOk(lists, live, next, fates) && Kept(lists, lists') && next <= c < next'
    ensures LedgerOk(lists', live + {c}, next', fates[c := Live])
  {
    forall p | p in lists' ensures ListOk(lists'[p], p, fates[c := Live]) {
      if p in lists { assert ListOk(lists[p], p, fates); }
    }
  }

  /** c ends; its code goes to the end of the keeper's list, if there is a keeper. */
  lemma LedgerDeath(lists: Lists, lists': Lists, live: set<nat>, next: nat, fates: Fates, c: nat, keeper: Pid,
      code: int)
    requires LedgerOk(lists, live, next, fates) && c in live
    requires forall p :: p in lists' ==> p in lists && lists'[p] == if p == keeper then lists[p] + [(c, code)]
               else lists[p]
    ensures LedgerOk(lists', live - {c}, next, fates[c := Dead(keeper, code)])
  {
    var fates' := fates[c := Dead(keeper, code)];
    forall p | p in lists' ensures ListOk(lists'[p], p, fates') {
      assert ListOk(lists[p], p, fates);
      if p == keeper { IdsAppend(lists[p], (c, code)); }
    }
  }

  lemma {:induction false} IdsAppend(list: seq<(nat, int)>, e: (nat, int))
    ensures Ids(list + [e]) == Ids(list) + [e.0]
  {
    forall i | 0 <= i < |list| + 1
      ensures Ids(list + [e])[i] == (Ids(list) + [e.0])[i]
    {
    }
  }

  /** Entry i of the keeper's list is collected. */
  lemma LedgerCollect(lists: Lists, lists': Lists, live: set<nat>, next: nat, fates: Fates, keeper: Pid, i: nat)
    requires LedgerOk(lists, live, next, fates) && keeper in lists && i < |lists[keeper]|
    requires lists' == lists[keeper := Without(lists[keeper], i)]
    ensures var (c, code) := lists[keeper][i];
            && c in fates && fates[c] == Dead(keeper, code)
            && LedgerOk(lists', live, next, fates[c := Collected])
  {
    var c := lists[keeper][i].0;
    var fates' := fates[c := Collected];
    assert ListOk(lists[keeper], keeper, fates);
    forall p | p in lists' ensures ListOk(lists'[p], p, fates') {
      assert ListOk(lists[p], p, fates);
      if p == keeper { CollectList(lists[p], i, fates, p); }
    }
  }

  /** Where entry a comes from after entry i has been taken out. */
  function Skip(a: nat, i: nat): nat { if a < i then a else a + 1 }

  lemma CollectList(list: seq<(nat, int)>, i: nat, fates: Fates, keeper: Pid)
    requires ListOk(list, keeper, fates) && i < |list|
    ensures ListOk(Without(list, i), keeper, fates[list[i].0 := Collected])
  {
    forall a | 0 <= a < |list| - 1
      ensures Without(list, i)[a] == list[Skip(a, i)]
    {
    }
  }

  function ChildLists(k: Kernel): Lists { map p | p in k.rel :: k.rel[p].deadChildren }

  function ThreadLists(k: Kernel): Lists { map p | p in k.rel :: k.rel[p].deadThreads }

  datatype Books = Books(procs: Fates, threads: Fates)

  ghost predicate BooksOk(k: Kernel, b: Books) {
    && LedgerOk(ChildLists(k), k.rel.Keys, k.nextPid, b.procs)
    && LedgerOk(ThreadLists(k), k.tasks, k.nextTid, b.threads)
  }

  /** The process whose code a trap delivers, or the thread. */
  function CollectedBy(k: Kernel, t: Trap): Option<(Pid, int)>
    requires k.HasCurrent()
  {
    if t.Wait? && k.WaitFor(t.child).1.Some? && k.WaitFor(t.child).1.value.0 != STILL_RUNNING
    then Some((k.WaitFor(t.child).1.value.0, k.WaitFor(t.child).1.value.1)) else None
  }

  /** Which entry of the caller's list of dead children `wait` takes: the last, or the first of that id. */
  function ChildTaken(k: Kernel, t: Trap): int
    requires k.HasCurrent() && t.Wait?
  {
    var list := k.rel[k.CurrentPid()].deadChildren;
    var i := Find(Ids(list), t.child);
    if t.child == USIZE_MAX then |list| - 1 else if i < |list| then i else -1
  }

  lemma WaitEffect(k: Kernel, t: Trap)
    requires k.HasCurrent() && t.Wait? && forall e :: e in k.rel[k.CurrentPid()].deadChildren ==> e.0 < STILL_RUNNING
    ensures var pid, k', i := k.CurrentPid(), k.Syscall(t).0, ChildTaken(k, t);
            var rel := k.rel[pid];
            && i < |rel.deadChildren|
            && k' == k.(rel := if i < 0 then k'.rel else k.rel[pid := rel.(deadChildren := Without(rel.deadChildren,
                 i))])
            && (i < 0 ==> k'.rel == k.rel)
            && CollectedBy(k, t) == if i < 0 then None else Some(rel.deadChildren[i])
  {
    var rel := k.rel[k.CurrentPid()];
    assert k.rel[k.CurrentPid() := rel] == k.rel;
    var list, i := rel.deadChildren, ChildTaken(k, t);
    if i >= 0 { assert list[i] in list; }
    if i == |list| - 1 >= 0 { assert Without(list, i) == list[..i]; }
  }

  /** Waiting collects a code that was kept for the caller, and only once. */
  lemma WaitBooks(k: Kernel, b: Books, t: Trap) returns (b': Books)
    requires BooksOk(k, b) && k.HasCurrent() && t.Wait? && k.nextPid <= STILL_RUNNING
    ensures BooksOk(k.Syscall(t).0, b')
    ensures var got := CollectedBy(k, t);
            if got.None? then b' == b
            else got.value.0 in b.procs && b.procs[got.value.0] == Dead(k.CurrentPid(), got.value.1)
                 && b' == b.(procs := b.procs[got.value.0 := Collected])
  {
    var pid, k', i := k.CurrentPid(), k.Syscall(t).0, ChildTaken(k, t);
    assert ListOk(ChildLists(k)[pid], pid, b.procs);
    WaitEffect(k, t);
    b' := b;
    if i >= 0 {
      WaitTables(k, k', b, pid, i);
      b' := b.(procs := b.procs[k.rel[pid].deadChildren[i].0 := Collected]);
    }
  }

  lemma WaitTables(k: Kernel, k': Kernel, b: Books, pid: Pid, i: nat)
    requires BooksOk(k, b) && pid in k.rel && i < |k.rel[pid].deadChildren|
    requires k' == k.(rel := k.rel[pid := k.rel[pid].(deadChildren := Without(k.rel[pid].deadChildren, i))])
    ensures var e := k.rel[pid].deadChildren[i];
            e.0 in b.procs && b.procs[e.0] == Dead(pid, e.1) && BooksOk(k', b.(procs := b.procs[e.0 := Collected]))
  {
    LedgerSame(ThreadLists(k), ThreadLists(k'), k.tasks, k.nextTid, k.nextTid, b.threads);
    assert ChildLists(k') == ChildLists(k)[pid := Without(k.rel[pid].deadChildren, i)];
    LedgerCollect(ChildLists(k), ChildLists(k'), k.rel.Keys, k.nextPid, b.procs, pid, i);
  }

  /** The dead thread whose code `waittid` takes off the list of its process. */
  function ThreadCollectedBy(k: Kernel, t: Trap): Option<(Tid, int)>
    requires k.HasCurrent()
  {
    var list := k.rel[k.CurrentPid()].deadThreads;
    if t.WaitTid? && t.tid != k.current.value && Find(Ids(list), t.tid) < |list|
    then Some(list[Find(Ids(list), t.tid)]) else None
  }

  lemma WaitTidEffect(k: Kernel, t: Trap)
    requires k.HasCurrent() && t.WaitTid?
    ensures var pid, k', got := k.CurrentPid(), k.Syscall(t).0, ThreadCollectedBy(k, t);
            var rel := k.rel[pid];
            var i := Find(Ids(rel.deadThreads), t.tid);
            if got.None? then k' == k && k.Syscall(t).1 in {-1, -2}
            else
              && i < |rel.deadThreads| && got == Some(rel.deadThreads[i]) && got.value == (t.tid, k.Syscall(t).1)
              && k' == k.(rel := k.rel[pid := rel.(deadThreads := Without(rel.deadThreads, i))])
  {
    var rel := k.rel[k.CurrentPid()];
    assert k.rel[k.CurrentPid() := rel] == k.rel;
  }

  /** The same for threads: what is delivered is the code that the thread ended with, whatever the code is; and every
      answer but -1 and -2 is a delivery. */
  lemma WaitTidBooks(k: Kernel, b: Books, t: Trap) returns (b': Books)
    requires BooksOk(k, b) && k.HasCurrent() && t.WaitTid?
    ensures BooksOk(k.Syscall(t).0, b')
    ensures var got := ThreadCollectedBy(k, t);
            if got.None? then b' == b && k.Syscall(t).1 in {-1, -2}
            else got.value == (t.tid, k.Syscall(t).1)
                 && t.tid in b.threads && b.threads[t.tid] == Dead(k.CurrentPid(), got.value.1)
                 && b' == b.(threads := b.threads[t.tid := Collected])
  {
    WaitTidEffect(k, t);
    b' := b;
    if ThreadCollectedBy(k, t).Some? {
      WaitTidTables(k, k.Syscall(t).0, b, k.CurrentPid(), Find(Ids(k.rel[k.CurrentPid()].deadThreads), t.tid));
      b' := b.(threads := b.threads[t.tid := Collected]);
    }
  }

  lemma WaitTidTables(k: Kernel, k': Kernel, b: Books, pid: Pid, i: nat)
    requires BooksOk(k, b) && pid in k.rel && i < |k.rel[pid].deadThreads|
    requires k' == k.(rel := k.rel[pid := k.rel[pid].(deadThreads := Without(k.rel[pid].deadThreads, i))])
    ensures var e := k.rel[pid].deadThreads[i];
            && e.0 in b.threads && b.threads[e.0] == Dead(pid, e.1)
            && BooksOk(k', b.(threads := b.threads[e.0 := Collected]))
  {
    LedgerSame(ChildLists(k), ChildLists(k'), k.rel.Keys, k.nextPid, k.nextPid, b.procs);
    assert ThreadLists(k') == ThreadLists(k)[pid := Without(k.rel[pid].deadThreads, i)];
    LedgerCollect(ThreadLists(k), ThreadLists(k'), k.tasks, k.nextTid, b.threads, pid, i);
  }

  /** What the end of the running thread adds to the lists. */
  lemma ExitLists(k: Kernel, code: int)
    requires TreeOk(k) && Members(k) && k.HasCurrent() && k.CanExit()
    ensures var k', tid, pid := k.MakeCurrentExited(code), k.current.value, k.CurrentPid();
            && k'.rel.Keys <= k.rel.Keys
            && forall p :: p in k'.rel ==>
                 && k'.rel[p].deadThreads == (if p == pid then k.rel[p].deadThreads + [(tid, code)]
                      else k.rel[p].deadThreads)
                 && k'.rel[p].deadChildren == if pid !in k'.rel
                      && p == k.rel[pid].parent then k.rel[p].deadChildren + [(pid, code)]
                                              else k.rel[p].deadChildren
  {
    var tid, pid := k.current.value, k.CurrentPid();
    assert ThreadOk(k, tid) && ParentOk(k, pid);
    if k.rel[pid].DelThread(tid, code).threads == [] {
      var rel := k.rel[pid := k.rel[pid].DelThread(tid, code)];
      var r := rel - {pid};
      var parent := rel[pid].parent;
      ReparentShape(if parent in r then r[parent := r[parent].DelChild(pid, code)] else r, rel[pid].children);
    }
  }

  lemma ExitBooks(k: Kernel, b: Books, code: int) returns (b': Books)
    requires BooksOk(k, b) && TreeOk(k) && Members(k) && k.HasCurrent() && k.CanExit()
    ensures BooksOk(k.MakeCurrentExited(code), b')
    ensures var tid, pid, k' := k.current.value, k.CurrentPid(), k.MakeCurrentExited(code);
            && b'.threads == b.threads[tid := Dead(pid, code)]
            && b'.procs == if pid in k'.rel then b.procs else b.procs[pid := Dead(k.rel[pid].parent, code)]
  {
    var tid, pid, k' := k.current.value, k.CurrentPid(), k.MakeCurrentExited(code);
    ExitShape(k, code);
    ExitLists(k, code);
    assert ThreadOk(k, tid);
    LedgerDeath(ThreadLists(k), ThreadLists(k'), k.tasks, k.nextTid, b.threads, tid, pid, code);
    b' := b.(threads := b.threads[tid := Dead(pid, code)]);
    if pid in k'.rel {
      LedgerSame(ChildLists(k), ChildLists(k'), k.rel.Keys, k.nextPid, k.nextPid, b.procs);
    } else {
      LedgerDeath(ChildLists(k), ChildLists(k'), k.rel.Keys, k.nextPid, b.procs, pid, k.rel[pid].parent, code);
      b' := b'.(procs := b.procs[pid := Dead(k.rel[pid].parent, code)]);
    }
  }

  lemma BirthBooks(k: Kernel, b: Books, t: Trap) returns (b': Books)
    requires BooksOk(k, b) && TreeOk(k) && Members(k) && k.HasCurrent() && k.Legal(t) && (t.Fork? || t.ThreadCreate?)
    ensures BooksOk(k.Syscall(t).0, b')
    ensures b'.threads == b.threads[k.nextTid := Live] && b'.procs == if t.Fork? then b.procs[k.nextPid := Live]
              else b.procs
  {
    var k' := k.Syscall(t).0;
    BirthLists(k, t);
    if t.Fork? {
      LedgerBirth(ChildLists(k), ChildLists(k'), k.rel.Keys, k.nextPid, k'.nextPid, b.procs, k.nextPid);
      b' := Books(b.procs[k.nextPid := Live], b.threads[k.nextTid := Live]);
    } else {
      LedgerSame(ChildLists(k), ChildLists(k'), k.rel.Keys, k.nextPid, k'.nextPid, b.procs);
      b' := b.(threads := b.threads[k.nextTid := Live]);
    }
    LedgerBirth(ThreadLists(k), ThreadLists(k'), k.tasks, k.nextTid, k'.nextTid, b.threads, k.nextTid);
  }

  lemma BirthLists(k: Kernel, t: Trap)
    requires Members(k) && k.HasCurrent() && k.Legal(t) && (t.Fork? || t.ThreadCreate?)
    ensures var k' := k.Syscall(t).0;
            && Kept(ChildLists(k), ChildLists(k')) && Kept(ThreadLists(k), ThreadLists(k'))
            && k'.rel.Keys == (if t.Fork? then k.rel.Keys + {k.nextPid} else k.rel.Keys)
                 && k'.tasks == k.tasks + {k.nextTid}
            && k'.nextTid == k.nextTid + 1 && k'.nextPid == if t.Fork? then k.nextPid + 1 else k.nextPid
  {
    if t.Fork? {
      assert k.nextPid in k.rel ==> ProcessOk(k, k.nextPid);
      ForkShape(k);
    }
  }

  /** A step that leaves the tables alone leaves the books alone. */
  lemma QuietBooks(k: Kernel, k': Kernel, b: Books)
    requires BooksOk(k, b) && k'.rel == k.rel && k'.tasks == k.tasks && k.nextPid <= k'.nextPid
             && k.nextTid <= k'.nextTid
    ensures BooksOk(k', b)
  {
    LedgerSame(ChildLists(k), ChildLists(k'), k.rel.Keys, k.nextPid, k'.nextPid, b.procs);
    LedgerSame(ThreadLists(k), ThreadLists(k'), k.tasks, k.nextTid, k'.nextTid, b.threads);
  }

  lemma QuietTables(k: Kernel, t: Trap)
    requires k.HasCurrent() && k.Legal(t)
    requires !t.Exit? && !t.Unsupported? && !t.Fault? && !t.Fork? && !t.ThreadCreate? && !t.Wait? && !t.WaitTid?
    ensures var k' := k.Handle(t);
            k'.rel == k.rel && k'.tasks == k.tasks && k'.nextPid >= k.nextPid && k'.nextTid >= k.nextTid
            && (!t.Exec? ==> k'.nextPid == k.nextPid)
  {
  }

  // ---- runs ----

  ghost predicate Good(k: Kernel, place: Places, b: Books) {
    k.current.None? && KernelOk(k, place) && TreeOk(k) && BooksOk(k, b)
  }

  predicate Ends(t: Trap) { t.Exit? || t.Unsupported? || t.Fault? }

  /** The code that a thread ends with. */
  function EndCode(t: Trap): int { if t.Exit? then t.code else if t.Unsupported? then -2 else -3 }

  /** What the callers have to see to: arguments that name existing objects, a mutex that is locked when it is
      unlocked and has a waiter when a condition is waited for, and a process 0 that outlives its children. */
  predicate Allowed(k: Kernel, t: Trap)
    requires k.HasCurrent()
  {
    if Ends(t) then
      !(k.CurrentPid() == 0 && k.rel[0].DelThread(k.current.value, 0).threads == [] && k.rel[0].children != [])
    else k.Legal(t)
  }

  /** One round of the main loop. */
  function Step(k: Kernel, t: Trap): Kernel {
    var k1 := k.FindNext();
    if k1.HasCurrent() && k1.Legal(t) then k1.Handle(t) else k
  }

  /** The loop goes on as long as a thread is ready. */
  predicate AllowedRun(k: Kernel, ts: seq<Trap>)
    decreases |ts|
  {
    ts == [] || (k.ready != [] && (k.FindNext().HasCurrent() ==> Allowed(k.FindNext(), ts[0]))
      && AllowedRun(Step(k, ts[0]), ts[1..]))
  }

  /** No lookup, index or unwrap of the kernel fails on the way. */
  predicate Safe(k: Kernel, ts: seq<Trap>)
    decreases |ts|
  {
    ts == [] || (k.FindNext().HasCurrent() && k.FindNext().Legal(ts[0]) && Safe(Step(k, ts[0]), ts[1..]))
  }

  function After(k: Kernel, ts: seq<Trap>): Kernel
    decreases |ts|
  {
    if ts == [] then k else After(Step(k, ts[0]), ts[1..])
  }

  /** A run that begins with one trap. */
  lemma RunCons(k: Kernel, t: Trap, ts: seq<Trap>)
    requires k.FindNext().HasCurrent() && k.FindNext().Legal(t) && Safe(Step(k, t), ts)
    ensures Safe(k, [t] + ts) && After(k, [t] + ts) == After(Step(k, t), ts)
  {
    assert ([t] + ts)[1..] == ts;
  }

  /** A list of at most one. */
  function ToSeq<T>(o: Option<T>): seq<T> { if o.None? then [] else [o.value] }

  /** The exit codes that waiting processes receive, in order. */
  function Collections(k: Kernel, ts: seq<Trap>): seq<(Pid, int)>
    decreases |ts|
  {
    if ts == [] then []
    else
      (if k.FindNext().HasCurrent() then ToSeq(CollectedBy(k.FindNext(), ts[0])) else [])
      + Collections(Step(k, ts[0]), ts[1..])
  }

  /** The exit codes of threads that `waittid` delivers, in order. */
  function ThreadCollections(k: Kernel, ts: seq<Trap>): seq<(Tid, int)>
    decreases |ts|
  {
    if ts == [] then []
    else
      (if k.FindNext().HasCurrent() then ToSeq(ThreadCollectedBy(k.FindNext(), ts[0])) else [])
      + ThreadCollections(Step(k, ts[0]), ts[1..])
  }

  ghost predicate IsCollected(fates: Fates, c: nat) { c in fates && fates[c] == Collected }

  /** What is delivered had not been delivered before, and what has been delivered stays delivered. */
  ghost predicate Delivers(fates: Fates, fates': Fates, got: Option<(nat, int)>) {
    && (got.Some? ==> !IsCollected(fates, got.value.0) && IsCollected(fates', got.value.0))
    && forall c :: IsCollected(fates, c) ==> IsCollected(fates', c)
  }

  /** All ids in the list are different, and none was delivered before. */
  ghost predicate AllNew(fates: Fates, list: seq<(nat, int)>) {
    NoDup(Ids(list)) && forall c :: IsCollected(fates, c) ==> c !in Ids(list)
  }

  lemma NewFirst(fates: Fates, fates': Fates, got: Option<(nat, int)>, rest: seq<(nat, int)>)
    requires Delivers(fates, fates', got) && AllNew(fates', rest)
    ensures AllNew(fates, ToSeq(got) + rest)
  {
    if got.None? {
      assert ToSeq(got) + rest == rest;
    } else {
      assert Ids([got.value] + rest) == [got.value.0] + Ids(rest);
    }
  }

  /** Fetching the next thread keeps everything. */
  lemma FetchKeeps(k: Kernel, place: Places, b: Books) returns (place': Places)
    requires Good(k, place, b) && k.ready != []
    ensures var k1 := k.FindNext(); k1.HasCurrent() && KernelOk(k1, place') && TreeOk(k1) && BooksOk(k1, b)
  {
    place' := FindNextLive(k, place);
    TreeSame(k, k.FindNext());
    QuietBooks(k, k.FindNext(), b);
  }

  /** The books after a trap of the running thread. */
  lemma TrapBooks(k: Kernel, b: Books, t: Trap) returns (b': Books)
    requires BooksOk(k, b) && TreeOk(k) && Members(k) && k.HasCurrent() && k.Legal(t)
    ensures BooksOk(k.Handle(t), b')
    ensures Delivers(b.procs, b'.procs, CollectedBy(k, t)) && Delivers(b.threads, b'.threads, ThreadCollectedBy(k, t))
  {
    if Ends(t) {
      LiveThread(k, b);
      b' := ExitBooks(k, b, EndCode(t));
    } else if t.Fork? || t.ThreadCreate? || t.Wait? || t.WaitTid? {
      b' := CallBooks(k, b, t);
      QuietBooks(k.Syscall(t).0, k.Handle(t), b');
    } else {
      QuietTables(k, t);
      QuietBooks(k, k.Handle(t), b);
      b' := b;
    }
  }

  lemma CallBooks(k: Kernel, b: Books, t: Trap) returns (b': Books)
    requires BooksOk(k, b) && TreeOk(k) && Members(k) && k.HasCurrent() && k.Legal(t)
    requires t.Fork? || t.ThreadCreate? || t.Wait? || t.WaitTid?
    ensures BooksOk(k.Syscall(t).0, b')
    ensures Delivers(b.procs, b'.procs, CollectedBy(k, t)) && Delivers(b.threads, b'.threads, ThreadCollectedBy(k, t))
  {
    if t.Wait? {
      b' := WaitBooks(k, b, t);
    } else if t.WaitTid? {
      b' := WaitTidBooks(k, b, t);
    } else {
      LiveThread(k, b);
      b' := BirthBooks(k, b, t);
    }
  }

  lemma LiveThread(k: Kernel, b: Books)
    requires BooksOk(k, b) && Members(k) && k.HasCurrent()
    ensures !IsCollected(b.threads, k.current.value) && !IsCollected(b.procs, k.CurrentPid())
    ensures !IsCollected(b.threads, k.nextTid) && !IsCollected(b.procs, k.nextPid)
  {
  }

  lemma TrapTree(k: Kernel, t: Trap)
    requires TreeOk(k) && Members(k) && k.HasCurrent() && k.Legal(t)
    ensures TreeOk(k.Handle(t))
  {
    if Ends(t) {
      ExitTree(k, EndCode(t));
    } else if t.Fork? {
      ForkTree(k);
      TreeSame(k.Syscall(t).0, k.Handle(t));
    } else if t.ThreadCreate? || t.Wait? || t.WaitTid? {
      TreeSame(k, k.Handle(t));
    } else {
      QuietTables(k, t);
      TreeSame(k, k.Handle(t));
    }
  }

  /** One round of the loop: it does not fail, and the invariant holds again. */
  lemma StepKeeps(k: Kernel, place: Places, b: Books, t: Trap) returns (place': Places, b': Books)
    requires Good(k, place, b) && k.ready != [] && (k.FindNext().HasCurrent() ==> Allowed(k.FindNext(), t))
    ensures k.FindNext().HasCurrent() && k.FindNext().Legal(t) && Good(Step(k, t), place', b')
    ensures Delivers(b.procs, b'.procs, CollectedBy(k.FindNext(), t))
    ensures Delivers(b.threads, b'.threads, ThreadCollectedBy(k.FindNext(), t))
  {
    var k1 := k.FindNext();
    var place1 := FetchKeeps(k, place, b);
    ExitSafe(k1);
    place' := TrapKeepsKernel(k1, place1, t);
    TrapTree(k1, t);
    b' := TrapBooks(k1, b, t);
  }

  /** Whatever the threads do, as long as their calls are allowed: no step fails, the invariant holds at the end,
      and no exit code of a process or a thread is delivered twice. */
  lemma {:induction false} RunKeeps(k: Kernel, place: Places, b: Books, ts: seq<Trap>)
      returns (place': Places, b': Books)
    requires Good(k, place, b) && AllowedRun(k, ts)
    ensures Safe(k, ts) && Good(After(k, ts), place', b')
    ensures AllNew(b.procs, Collections(k, ts)) && AllNew(b.threads, ThreadCollections(k, ts))
    decreases |ts|
  {
    if ts == [] {
      return place, b;
    }
    var place1, b1 := StepKeeps(k, place, b, ts[0]);
    place', b' := RunKeeps(Step(k, ts[0]), place1, b1, ts[1..]);
    var k1 := k.FindNext();
    NewFirst(b.procs, b1.procs, CollectedBy(k1, ts[0]), Collections(Step(k, ts[0]), ts[1..]));
    NewFirst(b.threads, b1.threads, ThreadCollectedBy(k1, ts[0]), ThreadCollections(Step(k, ts[0]), ts[1..]));
  }

  /** The kernel as `main` sets it up: process 0 with thread 0. */
  function Boot(): Kernel {
    Kernel({}, [], None, map[], map[], map[], 1, 1).AddProc(0, NEW_PROC, USIZE_MAX).Add(0, 0)
  }

  lemma BootIs()
    ensures Boot() == Kernel({0}, [0], None, map[0 := 0], map[0 := NewRel(USIZE_MAX).AddThread(0)], map[0 := NEW_PROC],
              1, 1)
  {
  }

  lemma BootGood() returns (place: Places, b: Books)
    ensures Good(Boot(), place, b)
  {
    BootIs();
    place, b := map[0 := Ready], Books(map[0 := Live], map[0 := Live]);
    BootKernel();
    BootBooks();
    assert ParentOk(Boot(), 0) && ChildrenOk(Boot(), 0);
  }

  lemma BootKernel()
    ensures KernelOk(Boot(), map[0 := Ready])
  {
    BootIs();
    forall pl ensures QueueOk(Boot(), map[0 := Ready], pl) { }
    assert ThreadOk(Boot(), 0) && ProcessOk(Boot(), 0);
  }

  lemma BootBooks()
    ensures BooksOk(Boot(), Books(map[0 := Live], map[0 := Live]))
  {
    BootIs();
    var b := Books(map[0 := Live], map[0 := Live]);
    forall p | p in ChildLists(Boot()) ensures ListOk(ChildLists(Boot())[p], p, b.procs) { }
    forall p | p in ThreadLists(Boot()) ensures ListOk(ThreadLists(Boot())[p], p, b.threads) { }
  }

  /** The theorem about the kernel, from boot. */
  lemma KernelRun(ts: seq<Trap>)
    requires AllowedRun(Boot(), ts)
    ensures Safe(Boot(), ts) && NoDup(Ids(Collections(Boot(), ts))) && NoDup(Ids(ThreadCollections(Boot(), ts)))
    ensures exists place, b :: Good(After(Boot(), ts), place, b)
    ensures var k := After(Boot(), ts);
            k.ready != [] ==> k.FindNext().current == Some(k.ready[0]) && k.ready[0] in k.tasks
  {
    var place, b := BootGood();
    var place', b' := RunKeeps(Boot(), place, b, ts);
    var k := After(Boot(), ts);
    if k.ready != [] {
      var place1 := FindNextLive(k, place');
    }
  }

  /** Since waiting never uses a condition variable's own queue, in no run does a signal wake anybody. */
  lemma SignalsAreLost(ts: seq<Trap>, id: nat)
    requires AllowedRun(Boot(), ts) && After(Boot(), ts).ready != []
    ensures var k := After(Boot(), ts).FindNext();
            k.HasCurrent() && (k.Legal(CondvarSignal(id)) ==> k.Syscall(CondvarSignal(id)) == (k, 0))
  {
    var place, b := BootGood();
    var place', b' := RunKeeps(Boot(), place, b, ts);
    var k := After(Boot(), ts).FindNext();
    var place1 := FindNextLive(After(Boot(), ts), place');
    SignalLost(k, id);
  }

  lemma SignalLost(k: Kernel, id: nat)
    requires Members(k) && k.HasCurrent()
    ensures k.Legal(CondvarSignal(id)) ==> k.Syscall(CondvarSignal(id)) == (k, 0)
  {
    assert ProcessOk(k, k.CurrentPid());
  }

  /** A state that some run reaches from boot. */
  ghost predicate Reached(k: Kernel) { exists ts :: AllowedRun(Boot(), ts) && k == After(Boot(), ts) }

  lemma ReachedGood(k: Kernel) returns (place: Places, b: Books)
    requires Reached(k)
    ensures Good(k, place, b)
  {
    var ts :| AllowedRun(Boot(), ts) && k == After(Boot(), ts);
    var place0, b0 := BootGood();
    place, b := RunKeeps(Boot(), place0, b0, ts);
  }
}
