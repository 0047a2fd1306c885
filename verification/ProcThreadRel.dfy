/** One process's children and threads: who is alive, and whose exit code has not been collected yet. */
module ProcThreadRels {
  import opened Options
  import opened Sync

  type Pid = nat

  const USIZE_MAX: nat := 0xFFFF_FFFF_FFFF_FFFF
  /** `-2 as usize`: stands for "children exist, but none of them has ended". */
  const STILL_RUNNING: Pid := USIZE_MAX - 1

  /** The position of x in s, or |s|. */
  function Find(s: seq<nat>, x: nat): (k: nat)
    ensures k <= |s| && (k < |s| ==> s[k] == x) && (k == |s| <==> x !in s)
  {
    if s == [] then 0 else if s[0] == x then 0 else 1 + Find(s[1..], x)
  }

  function Ids(s: seq<(nat, int)>): (r: seq<nat>)
    ensures |r| == |s| && forall k :: 0 <= k < |r| ==> r[k] == s[k].0
  {
    if s == [] then [] else [s[0].0] + Ids(s[1..])
  }

  function Without<T>(s: seq<T>, k: nat): (r: seq<T>)
    requires k < |s|
    ensures |r| == |s| - 1
  {
    s[..k] + s[k + 1..]
  }

  datatype RelState = RelState(parent: Pid, children: seq<Pid>, deadChildren: seq<(Pid, int)>,
                               threads: seq<Tid>, deadThreads: seq<(Tid, int)>) {

    function AddChild(child: Pid): RelState { this.(children := children + [child]) }

    /** A child ends: it moves to the list of dead children. */
    function DelChild(child: Pid, exitCode: int): RelState {
      var k := Find(children, child);
      if k == |children| then this
      else this.(children := Without(children, k), deadChildren := deadChildren + [(child, exitCode)])
    }

    /** The last dead child in the list is collected. */
    function WaitAnyChild(): (RelState, Option<(Pid, int)>) {
      if deadChildren != [] then
        (this.(deadChildren := deadChildren[..|deadChildren| - 1]), Some(deadChildren[|deadChildren| - 1]))
      else if children == [] then (this, None)
      else (this, Some((STILL_RUNNING, -1)))
    }

    function WaitChild(child: Pid): (RelState, Option<(Pid, int)>) {
      var k := Find(Ids(deadChildren), child);
      if k < |deadChildren| then (this.(deadChildren := Without(deadChildren, k)), Some(deadChildren[k]))
      else if child in children then (this, Some((STILL_RUNNING, -1)))
      else (this, None)
    }

    function AddThread(tid: Tid): RelState { this.(threads := threads + [tid]) }

    function DelThread(tid: Tid, exitCode: int): RelState {
      var k := Find(threads, tid);
      if k == |threads| then this
      else this.(threads := Without(threads, k), deadThreads := deadThreads + [(tid, exitCode)])
    }

    function WaitThread(tid: Tid): (RelState, Option<int>) {
      var k := Find(Ids(deadThreads), tid);
      if k < |deadThreads| then (this.(deadThreads := Without(deadThreads, k)), Some(deadThreads[k].1))
      else if tid in threads then (this, Some(-2))
      else (this, None)
    }
  }

  function NewRel(parent: Pid): RelState { RelState(parent, [], [], [], []) }

  /** The record a process keeps, updated in place. */
  class ProcThreadRel {
    var parent: Pid
    var children: seq<Pid>
    var deadChildren: seq<(Pid, int)>
    var threads: seq<Tid>
    var deadThreads: seq<(Tid, int)>

    constructor (parentPid: Pid)
      ensures State() == NewRel(parentPid)
    {
      parent, children, deadChildren, threads, deadThreads := parentPid, [], [], [], [];
    }

    function State(): RelState
      reads this
    {
      RelState(parent, children, deadChildren, threads, deadThreads)
    }

    method AddChild(childPid: Pid)
      modifies this
      ensures State() == old(State()).AddChild(childPid)
    {
      children := children + [childPid];
    }

    method DelChild(childPid: Pid, exitCode: int)
      modifies this
      ensures State() == old(State()).DelChild(childPid, exitCode)
    {
      var idx := Position(children, childPid);
      if idx < |children| {
        var deadChild := children[idx];
        children := children[..idx] + children[idx + 1..];
        deadChildren := deadChildren + [(deadChild, exitCode)];
      }
    }

    method WaitAnyChild() returns (r: Option<(Pid, int)>)
      modifies this
      ensures (State(), r) == old(State()).WaitAnyChild()
    {
      if deadChildren == [] {
        r := if children == [] then None else Some((STILL_RUNNING, -1));
      } else {
        r := Some(deadChildren[|deadChildren| - 1]);
        deadChildren := deadChildren[..|deadChildren| - 1];
      }
    }

    method WaitChild(childPid: Pid) returns (r: Option<(Pid, int)>)
      modifies this
      ensures (State(), r) == old(State()).WaitChild(childPid)
    {
      var idx := PairPosition(deadChildren, childPid);
      if idx < |deadChildren| {
        r := Some(deadChildren[idx]);
        deadChildren := deadChildren[..idx] + deadChildren[idx + 1..];
      } else {
        var alive := Position(children, childPid);
        r := if alive < |children| then Some((STILL_RUNNING, -1)) else None;
      }
    }

    method AddThread(tid: Tid)
      modifies this
      ensures State() == old(State()).AddThread(tid)
    {
      threads := threads + [tid];
    }

    method DelThread(tid: Tid, exitCode: int)
      modifies this
      ensures State() == old(State()).DelThread(tid, exitCode)
    {
      var idx := Position(threads, tid);
      if idx < |threads| {
        var deadThread := threads[idx];
        threads := threads[..idx] + threads[idx + 1..];
        deadThreads := deadThreads + [(deadThread, exitCode)];
      }
    }

    method WaitThread(tid: Tid) returns (r: Option<int>)
      modifies this
      ensures (State(), r) == old(State()).WaitThread(tid)
    {
      var idx := PairPosition(deadThreads, tid);
      if idx < |deadThreads| {
        r := Some(deadThreads[idx].1);
        deadThreads := deadThreads[..idx] + deadThreads[idx + 1..];
      } else {
        var alive := Position(threads, tid);
        r := if alive < |threads| then Some(-2) else None;
      }
    }
  }

  /** Scans for the first element equal to x. */
  method Position(s: seq<nat>, x: nat) returns (k: nat)
    ensures k == Find(s, x)
  {
    k := 0;
    assert s[0..] == s;
    while k < |s| && s[k] != x
      invariant k <= |s| && Find(s, x) == k + Find(s[k..], x)
    {
      assert s[k..][1..] == s[k + 1..];
      k := k + 1;
    }
  }

  method PairPosition(s: seq<(nat, int)>, x: nat) returns (k: nat)
    ensures k == Find(Ids(s), x)
  {
    k := 0;
    assert Ids(s)[0..] == Ids(s);
    while k < |s| && s[k].0 != x
      invariant k <= |s| && Find(Ids(s), x) == k + Find(Ids(s)[k..], x)
    {
      assert Ids(s)[k..][1..] == Ids(s)[k + 1..];
      k := k + 1;
    }
  }
}
