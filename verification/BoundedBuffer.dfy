/** The user program `mpsc_sem`: any number of producers and one consumer share a buffer of eight slots, guarded
    by three semaphores. Threads interleave at system calls only, in any order the scheduler may choose.
  */
module BoundedBuffer {
  import opened Options
  import opened Sync
  import opened Sequences

  const BUFFER_SIZE: nat := 8

  /** What a producer does next: `down(EMPTY)`, `down(MUTEX)`, store and `up(MUTEX)`, `up(EXISTED)`; a waiting one
      sleeps in the queue of a semaphore. */
  datatype ProducerPc = DownEmpty | AwaitEmpty | DownMutex | AwaitMutex | Store | UpExisted | Finished

  /** `left` counts the values still to be stored. */
  datatype Producer = Producer(pc: ProducerPc, left: nat)

  /** The consumer prints, itself a system call, between reading the slot and advancing TAIL. */
  datatype ConsumerPc = DownExisted | AwaitExisted | TakeMutex | WaitMutex | Print | Advance | UpEmpty | Ended

  datatype Consumer = Consumer(pc: ConsumerPc, left: nat)

  /** Thread i < |producers| is a producer, thread |producers| the consumer. `stored` and `consumed` record all
      values in order. */
  datatype State = State(mutex: SemaphoreState, empty: SemaphoreState, existed: SemaphoreState,
                         buffer: seq<nat>, front: nat, tail: nat, producers: seq<Producer>, consumer: Consumer,
                         stored: seq<nat>, consumed: seq<nat>) {

    predicate Runnable(tid: Tid) {
      if tid < |producers| then producers[tid].pc !in {AwaitEmpty, AwaitMutex, Finished}
      else tid == |producers| && consumer.pc !in {AwaitExisted, WaitMutex, Ended}
    }

    predicate AllDone() { consumer.pc == Ended && forall i :: 0 <= i < |producers| ==> producers[i].pc == Finished }

    function PutProducer(i: nat, p: Producer): State
      requires i < |producers|
    {
      this.(producers := producers[i := p])
    }

    /** A thread that was handed a unit goes on behind its `down`. */
    function Resume(waking: Option<Tid>): State {
      if waking.None? then this
      else if waking.value < |producers| then
        var p := producers[waking.value];
        PutProducer(waking.value, p.(pc := if p.pc == AwaitEmpty then DownMutex
                                           else if p.pc == AwaitMutex then Store else p.pc))
      else this.(consumer := consumer.(pc := if consumer.pc == AwaitExisted then TakeMutex
                                             else if consumer.pc == WaitMutex then Print else consumer.pc))
    }

    function ProducerStep(i: nat): State
      requires i < |producers| && front < |buffer|
    {
      var p := producers[i];
      match p.pc
      case DownEmpty =>
        this.(empty := empty.Down(i)).PutProducer(i, p.(pc := if empty.count > 0 then DownMutex else AwaitEmpty))
      case DownMutex =>
        this.(mutex := mutex.Down(i)).PutProducer(i, p.(pc := if mutex.count > 0 then Store else AwaitMutex))
      case Store =>
        this.(buffer := buffer[front := i], front := (front + 1) % BUFFER_SIZE, stored := stored + [i],
          mutex := mutex.Up())
            .PutProducer(i, Producer(UpExisted, if p.left > 0 then p.left - 1 else 0)).Resume(mutex.Granted())
      case UpExisted =>
        this.(existed := existed.Up())
            .PutProducer(i, p.(pc := if p.left > 0 then DownEmpty else Finished)).Resume(existed.Granted())
      case _ => this
    }

    function ConsumerStep(): State
      requires tail < |buffer|
    {
      var c := consumer;
      match c.pc
      case DownExisted =>
        this.(existed := existed.Down(|producers|),
              consumer := c.(pc := if existed.count > 0 then TakeMutex else AwaitExisted))
      case TakeMutex =>
        this.(mutex := mutex.Down(|producers|), consumer := c.(pc := if mutex.count > 0 then Print else WaitMutex))
      case Print =>
        this.(consumed := consumed + [buffer[tail]],
              consumer := Consumer(Advance, if c.left > 0 then c.left - 1 else 0))
      case Advance =>
        this.(tail := (tail + 1) % BUFFER_SIZE, mutex := mutex.Up(), consumer := c.(pc := UpEmpty))
            .Resume(mutex.Granted())
      case UpEmpty =>
        this.(empty := empty.Up(), consumer := c.(pc := if c.left > 0 then DownExisted else Ended))
            .Resume(empty.Granted())
      case _ => this
    }

    function Step(tid: Tid): State
      requires tid <= |producers| && front < |buffer| && tail < |buffer|
    {
      if tid < |producers| then ProducerStep(tid) else ConsumerStep()
    }
  }

  function Producers(n: nat, per: nat): (ps: seq<Producer>)
    ensures |ps| == n && forall i :: 0 <= i < n ==> ps[i] == Producer(if per > 0 then DownEmpty else Finished, per)
  {
    seq(n, _ => Producer(if per > 0 then DownEmpty else Finished, per))
  }

  /** The state after `main` has created semaphores and threads. */
  function Start(n: nat, per: nat): State {
    State(SemaphoreState(1, []), SemaphoreState(BUFFER_SIZE, []), SemaphoreState(0, []), seq(BUFFER_SIZE, _ => 0), 0, 0,
          Producers(n, per), Consumer(if n * per > 0 then DownExisted else Ended, n * per), [], [])
  }

  // ---- counting ----

  datatype Kind = HoldsSlot | HasStored | InMutex

  function Bit(b: bool): nat { if b then 1 else 0 }

  predicate Has(p: Producer, k: Kind) {
    match k
    case HoldsSlot => p.pc in {DownMutex, AwaitMutex, Store}
    case HasStored => p.pc == UpExisted
    case InMutex => p.pc == Store
  }

  function Count(ps: seq<Producer>, k: Kind): nat {
    if ps == [] then 0 else Bit(Has(ps[0], k)) + Count(ps[1..], k)
  }

  function Left(ps: seq<Producer>): nat { if ps == [] then 0 else ps[0].left + Left(ps[1..]) }

  lemma {:induction false} CountPut(ps: seq<Producer>, k: Kind, i: nat, p: Producer)
    requires i < |ps|
    ensures Count(ps[i := p], k) == Count(ps, k) - Bit(Has(ps[i], k)) + Bit(Has(p, k))
    ensures Left(ps[i := p]) == Left(ps) - ps[i].left + p.left
  {
    if i == 0 {
      assert ps[0 := p][1..] == ps[1..];
    } else {
      assert ps[i := p][1..] == ps[1..][i - 1 := p];
      CountPut(ps[1..], k, i - 1, p);
    }
  }

  lemma {:induction false} CountZero(ps: seq<Producer>, k: Kind)
    ensures Count(ps, k) == 0 <==> forall i :: 0 <= i < |ps| ==> !Has(ps[i], k)
  {
    if ps != [] { CountZero(ps[1..], k); }
  }

  // ---- the invariant ----

  function Free(s: SemaphoreState): nat { if s.count > 0 then s.count else 0 }

  /** Units that the consumer holds: an item it has been promised, a slot it has emptied, the mutex. */
  predicate Promised(c: Consumer) { c.pc in {TakeMutex, WaitMutex, Print} }
  predicate Emptied(c: Consumer) { c.pc in {Advance, UpEmpty} }
  predicate Inside(c: Consumer) { c.pc in {Print, Advance} }

  /** Every unit of every semaphore is accounted for. */
  predicate Tokens(s: State) {
    && s.mutex.Valid() && s.empty.Valid() && s.existed.Valid() && |s.consumed| <= |s.stored|
    && Free(s.mutex) + Count(s.producers, InMutex) + Bit(Inside(s.consumer)) == 1
    && Free(s.existed) + Count(s.producers, HasStored) + Bit(Promised(s.consumer)) == |s.stored| - |s.consumed|
    && Free(s.empty) + Count(s.producers, HoldsSlot) + (|s.stored| - |s.consumed|) + Bit(Emptied(s.consumer))
         == BUFFER_SIZE
  }

  /** The sleepers of each semaphore are in its queue. */
  ghost predicate Queues(s: State) {
    var n := |s.producers|;
    && NoDup(s.mutex.queue) && NoDup(s.empty.queue) && NoDup(s.existed.queue)
    && (forall t: Tid :: t in s.empty.queue <==> t < n && s.producers[t].pc == AwaitEmpty)
    && (forall t: Tid :: t in s.existed.queue <==> t == n && s.consumer.pc == AwaitExisted)
    && (forall t: Tid :: t in s.mutex.queue <==>
         (t < n && s.producers[t].pc == AwaitMutex) || (t == n && s.consumer.pc == WaitMutex))
  }

  /** No unread slot is overwritten, and what is read is what was stored, in order. */
  predicate Contents(s: State) {
    && |s.buffer| == BUFFER_SIZE && s.consumed <= s.stored
    && s.front == |s.stored| % BUFFER_SIZE
    && s.tail == (|s.consumed| - Bit(s.consumer.pc == Advance)) % BUFFER_SIZE
    && forall k :: |s.consumed| <= k < |s.stored| ==> s.buffer[k % BUFFER_SIZE] == s.stored[k]
  }

  /** Nothing is lost: what is left to store and to consume adds up. */
  predicate Quotas(s: State, total: nat) {
    && |s.stored| + Left(s.producers) == total && |s.consumed| + s.consumer.left == total
    && (forall i :: 0 <= i < |s.producers| ==>
          (s.producers[i].pc == Finished ==> s.producers[i].left == 0)
          && (s.producers[i].pc !in {UpExisted, Finished} ==> s.producers[i].left > 0))
    && (s.consumer.pc == Ended ==> s.consumer.left == 0)
    && (s.consumer.pc !in {Advance, UpEmpty, Ended} ==> s.consumer.left > 0)
  }

  ghost predicate Inv(s: State, total: nat) { Tokens(s) && Queues(s) && Contents(s) && Quotas(s, total) }

  lemma Counted(ps: seq<Producer>, i: nat, p: Producer)
    requires i < |ps|
    ensures forall k :: Count(ps[i := p], k) == Count(ps, k) - Bit(Has(ps[i], k)) + Bit(Has(p, k))
    ensures Left(ps[i := p]) == Left(ps) - ps[i].left + p.left
  {
    forall k ensures Count(ps[i := p], k) == Count(ps, k) - Bit(Has(ps[i], k)) + Bit(Has(p, k)) {
      CountPut(ps, k, i, p);
    }
    CountPut(ps, HoldsSlot, i, p);
  }

  lemma Pushed(q: seq<Tid>, t: Tid)
    requires NoDup(q) && t !in q
    ensures NoDup(q + [t]) && forall u :: u in q + [t] <==> u in q || u == t
  {
  }

  lemma DownEmptyKeeps(s: State, i: nat, total: nat)
    requires Inv(s, total) && i < |s.producers| && s.producers[i].pc == DownEmpty
    ensures Inv(s.ProducerStep(i), total)
  {
    var s' := s.ProducerStep(i);
    Counted(s.producers, i, s'.producers[i]);
    if s.empty.count <= 0 { Pushed(s.empty.queue, i); }
  }

  lemma DownMutexQueues(s: State, i: nat)
    requires Queues(s) && i < |s.producers| && s.producers[i].pc == DownMutex && s.front < |s.buffer|
    ensures Queues(s.ProducerStep(i))
  {
    if s.mutex.count <= 0 { Pushed(s.mutex.queue, i); }
  }

  lemma DownMutexKeeps(s: State, i: nat, total: nat)
    requires Inv(s, total) && i < |s.producers| && s.producers[i].pc == DownMutex
    ensures Inv(s.ProducerStep(i), total)
  {
    DownMutexQueues(s, i);
    Counted(s.producers, i, s.ProducerStep(i).producers[i]);
  }

  /** The new value lands in the slot after the last unread one. */
  lemma StoreContents(s: State, i: nat)
    requires Contents(s) && |s.stored| - |s.consumed| < BUFFER_SIZE
    ensures var buffer, stored := s.buffer[s.front := i], s.stored + [i];
            && (forall k :: |s.consumed| <= k < |stored| ==> buffer[k % BUFFER_SIZE] == stored[k])
            && (s.front + 1) % BUFFER_SIZE == |stored| % BUFFER_SIZE && s.consumed <= stored
  {
    NextSlot(|s.stored|);
    forall k | |s.consumed| <= k < |s.stored|
      ensures k % BUFFER_SIZE != s.front
    {
      SlotsDiffer(k, |s.stored|);
    }
  }

  lemma SlotsDiffer(a: nat, b: nat)
    requires a < b < a + BUFFER_SIZE
    ensures a % BUFFER_SIZE != b % BUFFER_SIZE
  {
  }

  /** Giving a unit of the mutex back, to the first sleeper if there is one. */
  lemma UpMutexQueues(s: State, s': State)
    requires Queues(s) && s' == s.(mutex := s.mutex.Up()).Resume(s.mutex.Granted())
    ensures Queues(s')
  {
    if s.mutex.queue != [] { Popped(s.mutex.queue); }
  }

  lemma UpEmptyQueues(s: State, s': State)
    requires Queues(s) && s' == s.(empty := s.empty.Up()).Resume(s.empty.Granted())
    ensures Queues(s')
  {
    if s.empty.queue != [] { Popped(s.empty.queue); }
  }

  lemma UpExistedQueues(s: State, s': State)
    requires Queues(s) && s' == s.(existed := s.existed.Up()).Resume(s.existed.Granted())
    ensures Queues(s')
  {
    if s.existed.queue != [] { Popped(s.existed.queue); }
  }

  /** The state between storing a value and giving the mutex back. */
  function Stored(s: State, i: nat): State
    requires i < |s.producers| && s.front < |s.buffer|
  {
    s.(buffer := s.buffer[s.front := i], front := (s.front + 1) % BUFFER_SIZE, stored := s.stored + [i])
        .PutProducer(i, Producer(UpExisted, if s.producers[i].left > 0 then s.producers[i].left - 1 else 0))
  }

  lemma StoreKeeps(s: State, i: nat, total: nat)
    requires Inv(s, total) && i < |s.producers| && s.producers[i].pc == Store
    ensures Inv(s.ProducerStep(i), total)
  {
    var s1 := Stored(s, i);
    StoreOwing(s, i, total);
    assert s.ProducerStep(i) == s1.(mutex := s1.mutex.Up()).Resume(s1.mutex.Granted());
    UpMutexQueues(s1, s.ProducerStep(i));
    UpMutexTokens(s1, total);
  }

  lemma StoreOwing(s: State, i: nat, total: nat)
    requires Inv(s, total) && i < |s.producers| && s.producers[i].pc == Store
    ensures Owing(Stored(s, i), total) && Queues(Stored(s, i))
  {
    var p := Producer(UpExisted, s.producers[i].left - 1);
    CountOne(s.producers, InMutex, i);
    CountOne(s.producers, HoldsSlot, i);
    StoreContents(s, i);
    Counted(s.producers, i, p);
    assert Contents(Stored(s, i));
  }

  lemma {:induction false} CountOne(ps: seq<Producer>, k: Kind, i: nat)
    requires i < |ps| && Has(ps[i], k)
    ensures Count(ps, k) >= 1
  {
    if i > 0 { CountOne(ps[1..], k, i - 1); }
  }

  /** The books but for one unit of the mutex that is about to be given back. */
  predicate Owing(s: State, total: nat) {
    && s.mutex.Valid() && s.empty.Valid() && s.existed.Valid() && |s.consumed| <= |s.stored|
    && Free(s.mutex) + Count(s.producers, InMutex) + Bit(Inside(s.consumer)) == 0
    && Free(s.existed) + Count(s.producers, HasStored) + Bit(Promised(s.consumer)) == |s.stored| - |s.consumed|
    && Free(s.empty) + Count(s.producers, HoldsSlot) + (|s.stored| - |s.consumed|) + Bit(Emptied(s.consumer))
         == BUFFER_SIZE
    && Contents(s) && Quotas(s, total)
  }

  lemma UpMutexTokens(s: State, total: nat)
    requires Owing(s, total) && Queues(s)
    ensures var s' := s.(mutex := s.mutex.Up()).Resume(s.mutex.Granted());
            Tokens(s') && Contents(s') && Quotas(s', total)
  {
    var s' := s.(mutex := s.mutex.Up()).Resume(s.mutex.Granted());
    if s.mutex.queue != [] {
      var w := s.mutex.queue[0];
      assert w in s.mutex.queue;
      if w < |s.producers| { Counted(s.producers, w, s'.producers[w]); }
    }
  }

  lemma UpExistedKeeps(s: State, i: nat, total: nat)
    requires Inv(s, total) && i < |s.producers| && s.producers[i].pc == UpExisted
    ensures Inv(s.ProducerStep(i), total)
  {
    var p := s.producers[i].(pc := if s.producers[i].left > 0 then DownEmpty else Finished);
    var s1 := s.PutProducer(i, p);
    assert s.ProducerStep(i) == s1.(existed := s1.existed.Up()).Resume(s1.existed.Granted());
    UpExistedOwing(s, i, p, total);
    UpExistedQueues(s1, s.ProducerStep(i));
    UpExistedTokens(s1, total);
  }

  /** The books but for one stored value that is about to be announced. */
  predicate OwingValue(s: State, total: nat) {
    && s.mutex.Valid() && s.empty.Valid() && s.existed.Valid() && |s.consumed| <= |s.stored|
    && Free(s.mutex) + Count(s.producers, InMutex) + Bit(Inside(s.consumer)) == 1
    && Free(s.existed) + Count(s.producers, HasStored) + Bit(Promised(s.consumer)) == |s.stored| - |s.consumed| - 1
    && Free(s.empty) + Count(s.producers, HoldsSlot) + (|s.stored| - |s.consumed|) + Bit(Emptied(s.consumer))
         == BUFFER_SIZE
    && Contents(s) && Quotas(s, total)
  }

  lemma UpExistedOwing(s: State, i: nat, p: Producer, total: nat)
    requires Inv(s, total) && i < |s.producers| && s.producers[i].pc == UpExisted
    requires p == s.producers[i].(pc := if s.producers[i].left > 0 then DownEmpty else Finished)
    ensures OwingValue(s.PutProducer(i, p), total) && Queues(s.PutProducer(i, p))
  {
    Counted(s.producers, i, p);
  }

  lemma UpExistedTokens(s: State, total: nat)
    requires OwingValue(s, total) && Queues(s)
    ensures var s' := s.(existed := s.existed.Up()).Resume(s.existed.Granted());
            Tokens(s') && Contents(s') && Quotas(s', total)
  {
    if s.existed.queue != [] { assert s.existed.queue[0] in s.existed.queue; }
  }

  lemma ConsumerDownKeeps(s: State, total: nat)
    requires Inv(s, total) && s.consumer.pc in {DownExisted, TakeMutex}
    ensures Inv(s.ConsumerStep(), total)
  {
    if s.consumer.pc == DownExisted && s.existed.count <= 0 { Pushed(s.existed.queue, |s.producers|); }
    if s.consumer.pc == TakeMutex && s.mutex.count <= 0 { Pushed(s.mutex.queue, |s.producers|); }
  }

  /** What is printed is the oldest value not printed yet. */
  lemma PrintKeeps(s: State, total: nat)
    requires Inv(s, total) && s.consumer.pc == Print
    ensures Inv(s.ConsumerStep(), total) && s.ConsumerStep().consumed == s.consumed + [s.stored[|s.consumed|]]
  {
    assert s.buffer[|s.consumed| % BUFFER_SIZE] == s.stored[|s.consumed|];
  }

  lemma AdvanceKeeps(s: State, total: nat)
    requires Inv(s, total) && s.consumer.pc == Advance
    ensures Inv(s.ConsumerStep(), total)
  {
    AdvanceOwing(s, total);
    UpMutexQueues(Advanced(s), s.ConsumerStep());
    UpMutexTokens(Advanced(s), total);
  }

  /** The state between advancing TAIL and giving the mutex back. */
  function Advanced(s: State): State {
    s.(tail := (s.tail + 1) % BUFFER_SIZE, consumer := s.consumer.(pc := UpEmpty))
  }

  lemma AdvanceOwing(s: State, total: nat)
    requires Inv(s, total) && s.consumer.pc == Advance
    ensures Owing(Advanced(s), total) && Queues(Advanced(s))
    ensures s.ConsumerStep() == Advanced(s).(mutex := s.mutex.Up()).Resume(s.mutex.Granted())
  {
    NextSlot(|s.consumed| - 1);
  }

  lemma NextSlot(n: int)
    ensures (n % BUFFER_SIZE + 1) % BUFFER_SIZE == (n + 1) % BUFFER_SIZE
  {
  }

  lemma UpEmptySleepers(s: State)
    requires Queues(s) && s.consumer.pc == UpEmpty && s.tail < |s.buffer|
    ensures Queues(s.ConsumerStep())
  {
    var s1 := s.(consumer := s.consumer.(pc := if s.consumer.left > 0 then DownExisted else Ended));
    assert s.ConsumerStep() == s1.(empty := s1.empty.Up()).Resume(s1.empty.Granted());
    UpEmptyQueues(s1, s.ConsumerStep());
  }

  lemma UpEmptyKeeps(s: State, total: nat)
    requires Inv(s, total) && s.consumer.pc == UpEmpty
    ensures Inv(s.ConsumerStep(), total)
  {
    var s' := s.ConsumerStep();
    UpEmptySleepers(s);
    if s.empty.queue != [] {
      var w := s.empty.queue[0];
      assert w in s.empty.queue;
      Counted(s.producers, w, s'.producers[w]);
    }
  }

  // ---- runs ----

  lemma StepKeeps(s: State, tid: Tid, total: nat)
    requires Inv(s, total) && s.Runnable(tid)
    ensures s.front < |s.buffer| && s.tail < |s.buffer| && tid <= |s.producers|
    ensures Inv(s.Step(tid), total) && |s.Step(tid).producers| == |s.producers|
    ensures s.stored <= s.Step(tid).stored && s.consumed <= s.Step(tid).consumed
  {
    if tid < |s.producers| { ProducerKeeps(s, tid, total); } else { ConsumerKeeps(s, total); }
  }

  lemma ProducerKeeps(s: State, i: nat, total: nat)
    requires Inv(s, total) && i < |s.producers| && s.Runnable(i)
    ensures Inv(s.ProducerStep(i), total) && |s.ProducerStep(i).producers| == |s.producers|
    ensures s.stored <= s.ProducerStep(i).stored && s.consumed == s.ProducerStep(i).consumed
  {
    match s.producers[i].pc
    case DownEmpty => DownEmptyKeeps(s, i, total);
    case DownMutex => DownMutexKeeps(s, i, total);
    case Store => StoreKeeps(s, i, total);
    case UpExisted => UpExistedKeeps(s, i, total);
  }

  lemma ConsumerKeeps(s: State, total: nat)
    requires Inv(s, total) && s.Runnable(|s.producers|)
    ensures Inv(s.ConsumerStep(), total) && |s.ConsumerStep().producers| == |s.producers|
    ensures s.stored == s.ConsumerStep().stored && s.consumed <= s.ConsumerStep().consumed
  {
    match s.consumer.pc
    case DownExisted => ConsumerDownKeeps(s, total);
    case TakeMutex => ConsumerDownKeeps(s, total);
    case Print => PrintKeeps(s, total);
    case Advance => AdvanceKeeps(s, total);
    case UpEmpty => UpEmptyKeeps(s, total);
  }

  /** Until all have finished, somebody can run: there is no deadlock. */
  lemma SomebodyRuns(s: State, total: nat)
    requires Inv(s, total) && !s.AllDone()
    ensures exists tid :: s.Runnable(tid)
  {
    if forall tid :: !s.Runnable(tid) {
      NobodyRuns(s, total);
    }
  }

  lemma NobodyRuns(s: State, total: nat)
    requires Inv(s, total) && forall tid :: !s.Runnable(tid)
    ensures s.AllDone()
  {
    var n := |s.producers|;
    forall i | 0 <= i < n ensures s.producers[i].pc in {AwaitEmpty, AwaitMutex, Finished} { assert !s.Runnable(i); }
    assert !s.Runnable(n);
    CountZero(s.producers, InMutex);
    assert s.mutex.queue == [];
    forall i | 0 <= i < n ensures s.producers[i].pc in {AwaitEmpty, Finished} { assert i !in s.mutex.queue; }
    assert n !in s.mutex.queue;
    if s.consumer.pc == AwaitExisted {
      assert n in s.existed.queue;
      EmptyBuffer(s, total);
      forall i | 0 <= i < n ensures s.producers[i].pc == Finished { assert i !in s.empty.queue; }
    }
    LeftNone(s.producers);
  }

  /** When the consumer waits and nothing is on its way, the buffer is empty and no producer waits for a slot. */
  lemma EmptyBuffer(s: State, total: nat)
    requires Inv(s, total) && s.existed.queue != [] && s.consumer.pc == AwaitExisted
    requires forall i :: 0 <= i < |s.producers| ==> !Has(s.producers[i], HasStored) && !Has(s.producers[i], HoldsSlot)
    ensures |s.stored| == |s.consumed| && s.empty.queue == []
  {
    CountZero(s.producers, HasStored);
    CountZero(s.producers, HoldsSlot);
  }

  lemma {:induction false} LeftNone(ps: seq<Producer>)
    ensures Left(ps) == 0 <==> forall i :: 0 <= i < |ps| ==> ps[i].left == 0
  {
    if ps != [] { LeftNone(ps[1..]); }
  }

  lemma {:induction false} LeftSame(ps: seq<Producer>, per: nat)
    requires forall i :: 0 <= i < |ps| ==> ps[i].left == per
    ensures Left(ps) == |ps| * per
  {
    if ps != [] {
      LeftSame(ps[1..], per);
      assert |ps| * per == per + (|ps| - 1) * per;
    }
  }

  lemma StartInv(n: nat, per: nat)
    ensures Inv(Start(n, per), n * per)
  {
    var s := Start(n, per);
    LeftSame(s.producers, per);
    forall k ensures Count(s.producers, k) == 0 { CountZero(s.producers, k); }
    if per > 0 { assert n > 0 ==> n * per > 0; }
  }

  /** How many system calls a thread still makes at most, sleeps counted as one more. */
  function ProducerWork(p: Producer): int {
    match p.pc
    case DownEmpty => 6 * p.left
    case AwaitEmpty => 6 * p.left - 1
    case DownMutex => 6 * p.left - 2
    case AwaitMutex => 6 * p.left - 3
    case Store => 6 * p.left - 4
    case UpExisted => 6 * p.left + 1
    case Finished => 0
  }

  function ConsumerWork(c: Consumer): int {
    match c.pc
    case DownExisted => 8 * c.left
    case AwaitExisted => 8 * c.left - 1
    case TakeMutex => 8 * c.left - 2
    case WaitMutex => 8 * c.left - 3
    case Print => 8 * c.left - 4
    case Advance => 8 * c.left + 2
    case UpEmpty => 8 * c.left + 1
    case Ended => 0
  }

  function ProducersWork(ps: seq<Producer>): int {
    if ps == [] then 0 else ProducerWork(ps[0]) + ProducersWork(ps[1..])
  }

  function Work(s: State): int { ProducersWork(s.producers) + ConsumerWork(s.consumer) }

  lemma {:induction false} WorkPut(ps: seq<Producer>, i: nat, p: Producer)
    requires i < |ps|
    ensures ProducersWork(ps[i := p]) == ProducersWork(ps) - ProducerWork(ps[i]) + ProducerWork(p)
  {
    if i == 0 {
      assert ps[0 := p][1..] == ps[1..];
    } else {
      assert ps[i := p][1..] == ps[1..][i - 1 := p];
      WorkPut(ps[1..], i - 1, p);
    }
  }

  lemma {:induction false} WorkNat(ps: seq<Producer>)
    requires forall i :: 0 <= i < |ps| && ps[i].pc !in {UpExisted, Finished} ==> ps[i].left > 0
    ensures ProducersWork(ps) >= 0
  {
    if ps != [] { WorkNat(ps[1..]); }
  }

  lemma ResumeWork(s: State, waking: Option<Tid>)
    ensures Work(s.Resume(waking)) <= Work(s)
  {
    if waking.Some? && waking.value < |s.producers| {
      WorkPut(s.producers, waking.value, s.Resume(waking).producers[waking.value]);
    }
  }

  /** Every step uses up work. */
  lemma StepWork(s: State, tid: Tid, total: nat)
    requires Inv(s, total) && s.Runnable(tid) && tid <= |s.producers|
    ensures 0 <= Work(s.Step(tid)) < Work(s)
  {
    StepKeeps(s, tid, total);
    WorkNat(s.Step(tid).producers);
    if tid < |s.producers| { ProducerStepWork(s, tid); } else { ConsumerStepWork(s); }
  }

  lemma ProducerStepWork(s: State, i: nat)
    requires i < |s.producers| && s.front < |s.buffer| && s.Runnable(i)
             && (s.producers[i].pc == Store ==> s.producers[i].left > 0)
    ensures Work(s.ProducerStep(i)) < Work(s)
  {
    var p := s.producers[i];
    match p.pc
    case DownEmpty => WorkPut(s.producers, i, s.ProducerStep(i).producers[i]);
    case DownMutex => WorkPut(s.producers, i, s.ProducerStep(i).producers[i]);
    case Store => StoreWork(s, i);
    case UpExisted =>
      var p' := p.(pc := if p.left > 0 then DownEmpty else Finished);
      WorkPut(s.producers, i, p');
      ResumeWork(s.(existed := s.existed.Up()).PutProducer(i, p'), s.existed.Granted());
  }

  lemma ConsumerStepWork(s: State)
    requires s.tail < |s.buffer| && s.Runnable(|s.producers|)
             && (s.consumer.pc !in {Advance, UpEmpty} ==> s.consumer.left > 0)
    ensures Work(s.ConsumerStep()) < Work(s)
  {
    if s.consumer.pc == Advance {
      ResumeWork(s.(tail := (s.tail + 1) % BUFFER_SIZE, mutex := s.mutex.Up(), consumer := s.consumer.(pc := UpEmpty)),
        s.mutex.Granted());
    } else if s.consumer.pc == UpEmpty {
      var c := s.consumer.(pc := if s.consumer.left > 0 then DownExisted else Ended);
      ResumeWork(s.(empty := s.empty.Up(), consumer := c), s.empty.Granted());
    }
  }

  lemma StoreWork(s: State, i: nat)
    requires i < |s.producers| && s.front < |s.buffer| && s.producers[i].pc == Store && s.producers[i].left > 0
    ensures Work(s.ProducerStep(i)) < Work(s)
  {
    var p := Producer(UpExisted, s.producers[i].left - 1);
    WorkPut(s.producers, i, p);
    ResumeWork(s.(buffer := s.buffer[s.front := i], front := (s.front + 1) % BUFFER_SIZE, stored := s.stored + [i],
      mutex := s.mutex.Up())
                .PutProducer(i, p), s.mutex.Granted());
  }

  /** A schedule: at each point the chosen thread can run. */
  ghost predicate Schedule(s: State, tids: seq<Tid>)
    decreases |tids|
  {
    tids == [] || (s.Runnable(tids[0]) && tids[0] <= |s.producers| && s.front < |s.buffer| && s.tail < |s.buffer|
                   && Schedule(s.Step(tids[0]), tids[1..]))
  }

  function After(s: State, tids: seq<Tid>): State
    decreases |tids|
  {
    if tids == [] || tids[0] > |s.producers| || s.front >= |s.buffer| || s.tail >= |s.buffer| then s
    else After(s.Step(tids[0]), tids[1..])
  }

  lemma {:induction false} ScheduleKeeps(s: State, tids: seq<Tid>, total: nat)
    requires Inv(s, total) && Schedule(s, tids)
    ensures Inv(After(s, tids), total) && |tids| <= Work(s) - Work(After(s, tids)) && 0 <= Work(After(s, tids))
    decreases |tids|
  {
    if tids == [] {
      WorkNat(s.producers);
    } else {
      StepKeeps(s, tids[0], total);
      StepWork(s, tids[0], total);
      ScheduleKeeps(s.Step(tids[0]), tids[1..], total);
    }
  }

  /** The program, for any number of producers and any schedule: the buffer never holds fewer than no or more than
      eight values, values come out in the order they went in, the program cannot get stuck or go on for ever, and
      when nobody can run any more it is complete. */
  lemma ProgramCorrect(n: nat, per: nat, tids: seq<Tid>)
    requires Schedule(Start(n, per), tids)
    ensures var s := After(Start(n, per), tids);
            && s.consumed <= s.stored && |s.stored| - |s.consumed| <= BUFFER_SIZE
            && |tids| <= Work(Start(n, per))
            && ((exists tid :: s.Runnable(tid)) || (s.AllDone() && s.consumed == s.stored && |s.consumed| == n * per))
  {
    StartInv(n, per);
    ScheduleKeeps(Start(n, per), tids, n * per);
    var s := After(Start(n, per), tids);
    if s.AllDone() { LeftNone(s.producers); } else { SomebodyRuns(s, n * per); }
  }
}
