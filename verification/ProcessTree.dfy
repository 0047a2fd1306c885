/** Parents and children: the process tree stays a tree, and removing a process never misses an entry. */
module ProcessTrees {
  import opened Options
  import opened Sync
  import opened ProcThreadRels
  import opened KernelStates
  import opened KernelInvariants
  import opened Sequences

  // ---- the tree ----

  /** Process p hangs below an older live process, which lists it. */
  predicate ParentOk(k: Kernel, p: Pid) {
    p in k.rel && (if p == 0 then k.rel[p].parent == USIZE_MAX
                   else k.rel[p].parent in k.rel && k.rel[p].parent < p && p in k.rel[k.rel[p].parent].children)
  }

  /** The children p lists are live, listed once, and name p as their parent. */
  predicate ChildrenOk(k: Kernel, p: Pid) {
    p in k.rel && NoDup(k.rel[p].children)
    && forall c :: c in k.rel[p].children ==> c in k.rel && c != 0 && k.rel[c].parent == p
  }

  ghost predicate TreeOk(k: Kernel) {
    && k.nextPid <= STILL_RUNNING
    && (forall p :: p in k.rel ==> p < k.nextPid)
    && (forall p {:trigger ParentOk(k, p)} :: p in k.rel ==> ParentOk(k, p))
    && (forall p {:trigger ChildrenOk(k, p)} :: p in k.rel ==> ChildrenOk(k, p))
  }

  /** As long as any process lives, process 0 does. */
  lemma {:induction false} RootLives(k: Kernel, p: Pid)
    requires TreeOk(k) && p in k.rel
    ensures 0 in k.rel
    decreases p
  {
    assert ParentOk(k, p);
    if p != 0 { RootLives(k, k.rel[p].parent); }
  }

  /** The unwraps on the way out fail in one case only: process 0 ends while it has children. */
  lemma ExitSafe(k: Kernel)
    requires TreeOk(k) && Members(k) && k.HasCurrent()
    ensures k.CanExit() <==>
            !(k.CurrentPid() == 0 && k.rel[0].DelThread(k.current.value, 0).threads == [] && k.rel[0].children != [])
  {
    var pid := k.CurrentPid();
    assert ChildrenOk(k, pid);
    RootLives(k, pid);
    forall i | 0 <= i < |k.rel[pid].children|
      ensures k.rel[pid].children[i] in k.rel && k.rel[pid].children[i] != pid
    {
      var c := k.rel[pid].children[i];
      assert c in k.rel[pid].children && ParentOk(k, c);
    }
  }

  /** Nothing the tree is made of changes. */
  lemma TreeSame(k: Kernel, k': Kernel)
    requires TreeOk(k) && k'.rel.Keys == k.rel.Keys && k.nextPid <= k'.nextPid <= STILL_RUNNING
    requires forall p :: p in k.rel ==> k'.rel[p].parent == k.rel[p].parent && k'.rel[p].children == k.rel[p].children
    ensures TreeOk(k')
  {
    forall p | p in k'.rel
      ensures ParentOk(k', p) && ChildrenOk(k', p)
    {
      assert ParentOk(k, p) && ChildrenOk(k, p);
    }
  }

  lemma ForkTree(k: Kernel)
    requires TreeOk(k) && Members(k) && k.HasCurrent() && k.Legal(Fork)
    ensures TreeOk(k.Syscall(Fork).0)
  {
    assert k.nextPid in k.rel ==> ProcessOk(k, k.nextPid);
    ForkShape(k);
    forall p | p in k.Syscall(Fork).0.rel
      ensures ParentOk(k.Syscall(Fork).0, p) && ChildrenOk(k.Syscall(Fork).0, p)
    {
      ForkTreeAt(k, k.Syscall(Fork).0, p);
    }
  }

  lemma ForkTreeAt(k: Kernel, k': Kernel, p: Pid)
    requires TreeOk(k) && k.HasCurrent() && k.nextPid !in k.rel && ForkTo(k, k') && p in k'.rel
    ensures ParentOk(k', p) && ChildrenOk(k', p)
  {
    var pid, parent := k.nextPid, k.CurrentPid();
    if p != pid {
      assert ParentOk(k, p) && ChildrenOk(k, p);
      if p == parent { AppendOne(k.rel[p].children, pid); }
      if p != 0 { assert k'.rel[p].parent == k.rel[p].parent; }
    } else {
      assert k'.rel[parent].children[|k.rel[parent].children|] == pid;
    }
  }

  /** The children of p that are left when pid is gone. */
  function Left(k: Kernel, pid: Pid, p: Pid): seq<Pid>
    requires p in k.rel && pid in k.rel
  {
    if p == k.rel[pid].parent then k.rel[p].DelChild(pid, 0).children else k.rel[p].children
  }

  lemma LeftIs(k: Kernel, pid: Pid, p: Pid)
    requires TreeOk(k) && p in k.rel && pid in k.rel && p != pid
    ensures NoDup(Left(k, pid, p)) && forall c :: c in Left(k, pid, p) <==> c in k.rel[p].children && c != pid
  {
    assert ChildrenOk(k, p) && ParentOk(k, pid);
    if p == k.rel[pid].parent && pid in k.rel[p].children {
      RemoveOne(k.rel[p].children, Find(k.rel[p].children, pid));
    }
  }

  /** The children of a process that ends, and those of the others afterwards. */
  lemma DelProcShape(k: Kernel, pid: Pid, code: int)
    requires TreeOk(k) && k.CanDelProc(pid)
    ensures var k' := k.DelProc(pid, code);
            var gone := k.rel[pid].children;
            && k'.rel.Keys == k.rel.Keys - {pid}
            && forall p :: p in k'.rel ==>
                 && k'.rel[p].parent == (if p in gone then 0 else k.rel[p].parent)
                 && k'.rel[p].children == if p == 0 then Left(k, pid, p) + gone else Left(k, pid, p)
  {
    var r := k.rel - {pid};
    var parent := k.rel[pid].parent;
    assert ParentOk(k, pid);
    var r' := if parent in r then r[parent := r[parent].DelChild(pid, code)] else r;
    ReparentShape(r', k.rel[pid].children);
  }

  lemma ConcatNoDup(a: seq<nat>, b: seq<nat>)
    requires NoDup(a) && NoDup(b) && forall x :: x in a ==> x !in b
    ensures NoDup(a + b)
  {
    forall i, j | 0 <= i < j < |a + b|
      ensures (a + b)[i] != (a + b)[j]
    {
      if i < |a| <= j { assert a[i] in a && b[j - |a|] in b; }
    }
  }

  lemma DelProcTree(k: Kernel, pid: Pid, code: int)
    requires TreeOk(k) && k.CanDelProc(pid)
    ensures TreeOk(k.DelProc(pid, code))
  {
    var k', gone := k.DelProc(pid, code), k.rel[pid].children;
    DelProcShape(k, pid, code);
    assert ParentOk(k, pid) && ChildrenOk(k, pid);
    forall p | p in k'.rel
      ensures ChildrenOk(k', p)
    {
      DelProcChildren(k, pid, code, p);
    }
    forall p | p in k'.rel
      ensures ParentOk(k', p)
    {
      DelProcParent(k, pid, code, p);
    }
  }

  lemma DelProcChildren(k: Kernel, pid: Pid, code: int, p: Pid)
    requires TreeOk(k) && k.CanDelProc(pid) && p in k.DelProc(pid, code).rel
    ensures ChildrenOk(k.DelProc(pid, code), p)
  {
    DelProcShape(k, pid, code);
    LeftIs(k, pid, p);
    var k', gone, left := k.DelProc(pid, code), k.rel[pid].children, Left(k, pid, p);
    assert ParentOk(k, pid) && ChildrenOk(k, pid) && ChildrenOk(k, p);
    if p == 0 { ConcatNoDup(left, gone); }
    forall c | c in k'.rel[p].children
      ensures c in k'.rel && c != 0 && k'.rel[c].parent == p
    {
      assert c in left || (p == 0 && c in gone);
      if c in gone { assert c != pid by { assert ParentOk(k, c); } }
    }
  }

  lemma DelProcParent(k: Kernel, pid: Pid, code: int, p: Pid)
    requires TreeOk(k) && k.CanDelProc(pid) && p in k.DelProc(pid, code).rel
    ensures ParentOk(k.DelProc(pid, code), p)
  {
    DelProcShape(k, pid, code);
    var k', gone := k.DelProc(pid, code), k.rel[pid].children;
    assert ParentOk(k, pid) && ChildrenOk(k, pid) && ParentOk(k, p);
    if p != 0 {
      if p in gone {
        assert p in Left(k, pid, 0) + gone;
      } else {
        var q := k.rel[p].parent;
        LeftIs(k, pid, q);
        assert p in Left(k, pid, q);
        if q == 0 { assert p in Left(k, pid, 0) + gone; }
      }
    }
  }

  lemma ExitTree(k: Kernel, code: int)
    requires TreeOk(k) && Members(k) && k.HasCurrent() && k.CanExit()
    ensures TreeOk(k.MakeCurrentExited(code))
  {
    var tid, pid := k.current.value, k.CurrentPid();
    var k1 := k.(tasks := k.tasks - {tid}, tid2pid := k.tid2pid - {tid}, current := None,
                 rel := k.rel[pid := k.rel[pid].DelThread(tid, code)]);
    TreeSame(k, k1);
    if k1.rel[pid].threads == [] {
      assert k1.CanDelProc(pid);
      DelProcTree(k1, pid, code);
    }
  }
}
