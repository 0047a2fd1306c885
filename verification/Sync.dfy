/** Blocking mutexes, counting semaphores and condition variables, as objects that keep a queue of thread ids.

    None of them blocks by itself: a `false` tells the kernel to block the caller, a returned thread id tells it
    to put that thread back on the ready queue.
  */
module Sync {
  import opened Options

  type Tid = nat

  // ---- mutex ----

  datatype MutexState = MutexState(locked: bool, queue: seq<Tid>) {
    /** Nobody waits for a free mutex. */
    predicate Valid() { !locked ==> queue == [] }

    function Lock(tid: Tid): MutexState { if locked then this.(queue := queue + [tid]) else this.(locked := true) }

    /** Ownership passes to the first waiter; only without one does the mutex become free. */
    function Unlock(): MutexState { if queue == [] then this.(locked := false) else this.(queue := queue[1..]) }

    function Granted(): Option<Tid> { if queue == [] then None else Some(queue[0]) }
  }

  const FREE: MutexState := MutexState(false, [])

  class MutexBlocking {
    var locked: bool
    var waitQueue: seq<Tid>

    constructor ()
      ensures State() == FREE
    {
      locked, waitQueue := false, [];
    }

    function State(): MutexState
      reads this
    {
      MutexState(locked, waitQueue)
    }

    /** Takes the mutex, or queues the thread. */
    method Lock(tid: Tid) returns (ok: bool)
      modifies this
      ensures State() == old(State()).Lock(tid) && ok == !old(locked)
    {
      if locked {
        waitQueue := waitQueue + [tid];
        ok := false;
      } else {
        locked := true;
        ok := true;
      }
    }

    /** Releases a locked mutex, handing it to the first waiter if there is one. */
    method Unlock() returns (waking: Option<Tid>)
      requires locked
      modifies this
      ensures State() == old(State()).Unlock() && waking == old(State()).Granted()
    {
      if waitQueue == [] {
        locked := false;
        waking := None;
      } else {
        waking := Some(waitQueue[0]);
        waitQueue := waitQueue[1..];
      }
    }
  }

  // ---- semaphore ----

  datatype SemaphoreState = SemaphoreState(count: int, queue: seq<Tid>) {
    /** A negative count is the number of waiters. */
    predicate Valid() { |queue| == if count < 0 then -count else 0 }

    function Up(): SemaphoreState { SemaphoreState(count + 1, if queue == [] then [] else queue[1..]) }

    function Granted(): Option<Tid> { if queue == [] then None else Some(queue[0]) }

    function Down(tid: Tid): SemaphoreState {
      SemaphoreState(count - 1, if count - 1 < 0 then queue + [tid] else queue)
    }
  }

  class Semaphore {
    var count: int
    var waitQueue: seq<Tid>

    constructor (resCount: nat)
      ensures State() == SemaphoreState(resCount, [])
    {
      count, waitQueue := resCount, [];
    }

    function State(): SemaphoreState
      reads this
    {
      SemaphoreState(count, waitQueue)
    }

    /** Gives one unit back and releases the first waiter. */
    method Up() returns (waking: Option<Tid>)
      modifies this
      ensures State() == old(State()).Up() && waking == old(State()).Granted()
    {
      count := count + 1;
      if waitQueue == [] {
        waking := None;
      } else {
        waking := Some(waitQueue[0]);
        waitQueue := waitQueue[1..];
      }
    }

    /** Takes one unit, or queues the thread. */
    method Down(tid: Tid) returns (ok: bool)
      modifies this
      ensures State() == old(State()).Down(tid) && ok == (old(count) > 0)
    {
      count := count - 1;
      if count < 0 {
        waitQueue := waitQueue + [tid];
        ok := false;
      } else {
        ok := true;
      }
    }
  }

  // ---- condition variable ----

  class Condvar {
    var waitQueue: seq<Tid>

    constructor ()
      ensures waitQueue == []
    {
      waitQueue := [];
    }

    method Signal() returns (waking: Option<Tid>)
      modifies this
      ensures waking == (if old(waitQueue) == [] then None else Some(old(waitQueue)[0]))
      ensures waitQueue == if old(waitQueue) == [] then [] else old(waitQueue)[1..]
    {
      if waitQueue == [] {
        waking := None;
      } else {
        waking := Some(waitQueue[0]);
        waitQueue := waitQueue[1..];
      }
    }

    /** Unlocks and locks again, which with a waiter at hand rotates the queue of the mutex: the first waiter
        gets it, the caller goes to the end. The condition variable's own queue is not used. */
    method WaitWithMutex(tid: Tid, mutex: MutexBlocking) returns (ok: bool, waking: Option<Tid>)
      requires mutex.locked && mutex.waitQueue != []
      modifies mutex
      ensures !ok && waking == Some(old(mutex.waitQueue)[0])
      ensures mutex.State() == MutexState(true, old(mutex.waitQueue)[1..] + [tid])
    {
      waking := mutex.Unlock();
      ok := mutex.Lock(tid);
    }
  }

  // ---- runs of a mutex ----

  datatype MutexEvent = LockBy(tid: Tid) | UnlockEvent

  function MutexNext(m: MutexState, e: MutexEvent): MutexState {
    match e
    case LockBy(tid) => m.Lock(tid)
    case UnlockEvent => m.Unlock()
  }

  /** The thread that gets the mutex by this event. */
  function MutexGrant(m: MutexState, e: MutexEvent): seq<Tid> {
    match e
    case LockBy(tid) => if m.locked then [] else [tid]
    case UnlockEvent => if m.queue == [] then [] else [m.queue[0]]
  }

  /** Only a locked mutex is unlocked. */
  predicate LegalMutexRun(m: MutexState, es: seq<MutexEvent>)
    decreases |es|
  {
    es == [] || ((es[0].UnlockEvent? ==> m.locked) && LegalMutexRun(MutexNext(m, es[0]), es[1..]))
  }

  function MutexAfter(m: MutexState, es: seq<MutexEvent>): MutexState
    decreases |es|
  {
    if es == [] then m else MutexAfter(MutexNext(m, es[0]), es[1..])
  }

  /** The threads that got the mutex, in that order. */
  function Owners(m: MutexState, es: seq<MutexEvent>): seq<Tid>
    decreases |es|
  {
    if es == [] then [] else MutexGrant(m, es[0]) + Owners(MutexNext(m, es[0]), es[1..])
  }

  function LockRequest(e: MutexEvent): seq<Tid> { if e.LockBy? then [e.tid] else [] }

  /** The threads that asked for it, in that order. */
  function LockRequests(es: seq<MutexEvent>): seq<Tid> {
    if es == [] then [] else LockRequest(es[0]) + LockRequests(es[1..])
  }

  function Unlocks(es: seq<MutexEvent>): nat {
    if es == [] then 0 else (if es[0].UnlockEvent? then 1 else 0) + Unlocks(es[1..])
  }

  /** No overtaking: whoever waits or asks gets the mutex in the order of asking. */
  lemma {:induction false} MutexFifo(m: MutexState, es: seq<MutexEvent>)
    requires m.Valid() && LegalMutexRun(m, es)
    ensures MutexAfter(m, es).Valid()
    ensures Owners(m, es) + MutexAfter(m, es).queue == m.queue + LockRequests(es)
    decreases |es|
  {
    if es == [] {
      assert [] + m.queue == m.queue + [];
    } else {
      var next := MutexNext(m, es[0]);
      MutexFifo(next, es[1..]);
      MutexStepFifo(m, es[0]);
      Regroup(MutexGrant(m, es[0]), Owners(next, es[1..]), MutexAfter(m, es).queue,
              next.queue, m.queue, LockRequest(es[0]), LockRequests(es[1..]));
    }
  }

  lemma MutexStepFifo(m: MutexState, e: MutexEvent)
    requires m.Valid() && (e.UnlockEvent? ==> m.locked)
    ensures MutexNext(m, e).Valid() && MutexGrant(m, e) + MutexNext(m, e).queue == m.queue + LockRequest(e)
  {
  }

  lemma Regroup(g: seq<Tid>, o: seq<Tid>, a: seq<Tid>, q': seq<Tid>, q: seq<Tid>, k: seq<Tid>, r: seq<Tid>)
    requires o + a == q' + r && g + q' == q + k
    ensures (g + o) + a == q + (k + r)
  {
    assert (g + o) + a == g + (o + a);
    assert g + (q' + r) == (g + q') + r;
    assert (q + k) + r == q + (k + r);
  }

  /** A waiter at position k is served by exactly the (k+1)-th unlock, whatever else happens in between. */
  lemma {:induction false} MutexHandOff(m: MutexState, es: seq<MutexEvent>, k: nat)
    requires m.locked && k < |m.queue| && LegalMutexRun(m, es)
    ensures Unlocks(es) <= k ==>
              k - Unlocks(es) < |MutexAfter(m, es).queue| && MutexAfter(m, es).queue[k - Unlocks(es)] == m.queue[k]
    ensures Unlocks(es) > k ==> k < |Owners(m, es)| && Owners(m, es)[k] == m.queue[k]
    decreases |es|
  {
    if es != [] {
      if es[0].LockBy? {
        MutexHandOff(m.Lock(es[0].tid), es[1..], k);
      } else if k > 0 {
        MutexHandOff(m.Unlock(), es[1..], k - 1);
      }
    }
  }

  // ---- runs of a semaphore ----

  datatype SemaphoreEvent = DownBy(tid: Tid) | UpEvent

  function SemaphoreNext(s: SemaphoreState, e: SemaphoreEvent): SemaphoreState {
    match e
    case DownBy(tid) => s.Down(tid)
    case UpEvent => s.Up()
  }

  /** The thread that gets a unit by this event. */
  function SemaphoreGrant(s: SemaphoreState, e: SemaphoreEvent): seq<Tid> {
    match e
    case DownBy(tid) => if s.count > 0 then [tid] else []
    case UpEvent => if s.queue == [] then [] else [s.queue[0]]
  }

  function SemaphoreAfter(s: SemaphoreState, es: seq<SemaphoreEvent>): SemaphoreState
    decreases |es|
  {
    if es == [] then s else SemaphoreAfter(SemaphoreNext(s, es[0]), es[1..])
  }

  /** The threads that got a unit, in that order. */
  function Acquired(s: SemaphoreState, es: seq<SemaphoreEvent>): seq<Tid>
    decreases |es|
  {
    if es == [] then [] else SemaphoreGrant(s, es[0]) + Acquired(SemaphoreNext(s, es[0]), es[1..])
  }

  function Request(e: SemaphoreEvent): seq<Tid> { if e.DownBy? then [e.tid] else [] }

  function Requests(es: seq<SemaphoreEvent>): seq<Tid> {
    if es == [] then [] else Request(es[0]) + Requests(es[1..])
  }

  function Ups(es: seq<SemaphoreEvent>): nat {
    if es == [] then 0 else (if es[0].UpEvent? then 1 else 0) + Ups(es[1..])
  }

  /** Units are conserved and handed out in the order of the requests. */
  lemma {:induction false} SemaphoreFifo(s: SemaphoreState, es: seq<SemaphoreEvent>)
    requires s.Valid()
    ensures SemaphoreAfter(s, es).Valid()
    ensures SemaphoreAfter(s, es).count == s.count + Ups(es) - |Requests(es)|
    ensures Acquired(s, es) + SemaphoreAfter(s, es).queue == s.queue + Requests(es)
    decreases |es|
  {
    if es == [] {
      assert [] + s.queue == s.queue + [];
    } else {
      var next := SemaphoreNext(s, es[0]);
      SemaphoreFifo(next, es[1..]);
      SemaphoreStepFifo(s, es[0]);
      Regroup(SemaphoreGrant(s, es[0]), Acquired(next, es[1..]), SemaphoreAfter(s, es).queue,
              next.queue, s.queue, Request(es[0]), Requests(es[1..]));
    }
  }

  lemma SemaphoreStepFifo(s: SemaphoreState, e: SemaphoreEvent)
    requires s.Valid()
    ensures SemaphoreNext(s, e).Valid() && SemaphoreGrant(s, e) + SemaphoreNext(s, e).queue == s.queue + Request(e)
  {
  }

  /** From a fresh semaphore: the first `resCount` + ups requests are served, in order; the others wait, in order. */
  lemma SemaphoreConservation(resCount: nat, es: seq<SemaphoreEvent>)
    ensures var s := SemaphoreState(resCount, []);
            var n := if resCount + Ups(es) < |Requests(es)| then resCount + Ups(es) else |Requests(es)|;
            && SemaphoreAfter(s, es).count == resCount + Ups(es) - |Requests(es)|
            && Acquired(s, es) == Requests(es)[..n] && SemaphoreAfter(s, es).queue == Requests(es)[n..]
  {
    var s := SemaphoreState(resCount, []);
    SemaphoreFifo(s, es);
    assert s.queue + Requests(es) == Requests(es);
  }
}
