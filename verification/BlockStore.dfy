/** The device as the file system sees it through the block cache.

    `blocks` is the logical content of every block. `held` lists the cache entries that are locked right now, innermost
    last: a block must not be locked twice, and no operation keeps more than three entries pinned. `synced` says that
    the device itself holds `blocks`. `trace` records all accesses; module `BlockCaches` repeats traces over the cache
    and shows that it answers every one of them as it was answered here.
  */
module BlockStorage {
  import opened BlockViews

  const MAX_HELD: nat := 3

  function Pushed(held: seq<nat>, b: nat): seq<nat> { if held == [] then [b] else held + [b] }

  // ---- accesses ----

  datatype Access =
    | LockOf(b: nat)
    | UnlockLast
    | ReadOf(b: nat, seen: Block)
    | WriteOf(b: nat, x: Block)
    | SyncDevice

  /** What there is to see of a store. */
  datatype View = View(blocks: seq<Block>, held: seq<nat>, synced: bool) {
    predicate Legal(a: Access) {
      match a
      case LockOf(b) => b < |blocks| && b !in held && |held| < MAX_HELD
      case UnlockLast => held != []
      case ReadOf(b, x) => b in held && b < |blocks| && x == blocks[b]
      case WriteOf(b, _) => b in held && b < |blocks|
      case SyncDevice => held == []
    }

    function Next(a: Access): View
      requires Legal(a)
    {
      match a
      case LockOf(b) => this.(held := Pushed(held, b))
      case UnlockLast => this.(held := held[..|held| - 1])
      case ReadOf(_, _) => this
      case WriteOf(b, x) => this.(blocks := blocks[b := x], synced := false)
      case SyncDevice => this.(synced := true)
    }
  }

  /** The i-th access is legal, a read sees what there is, and it leads from the i-th view to the next. */
  predicate IsStep(path: seq<View>, t: seq<Access>, i: nat)
    requires |path| == |t| + 1 && i < |t|
  {
    path[i].Legal(t[i]) && path[i + 1] == path[i].Next(t[i])
  }

  ghost predicate IsPath(v: View, t: seq<Access>, w: View, path: seq<View>) {
    && |path| == |t| + 1 && path[0] == v && path[|t|] == w
    && forall i {:trigger IsStep(path, t, i)} :: 0 <= i < |t| ==> IsStep(path, t, i)
  }

  /** The accesses, all legal, lead from `v` to `w`. */
  ghost predicate Leads(v: View, t: seq<Access>, w: View) { exists path :: IsPath(v, t, w, path) }

  lemma LeadsNowhere(v: View)
    ensures Leads(v, [], v)
  {
    assert IsPath(v, [], v, [v]);
  }

  lemma LeadsOn(v: View, t: seq<Access>, u: View, a: Access)
    requires Leads(v, t, u) && u.Legal(a)
    ensures Leads(v, t + [a], u.Next(a))
  {
    var path :| IsPath(v, t, u, path);
    var path' := path + [u.Next(a)];
    forall i | 0 <= i < |t + [a]|
      ensures IsStep(path', t + [a], i)
    {
      if i < |t| { assert IsStep(path, t, i); }
    }
    assert IsPath(v, t + [a], u.Next(a), path');
  }

  class BlockStore {
    const start: seq<Block>
    var blocks: seq<Block>
    var held: seq<nat>
    var synced: bool
    var trace: seq<Access>

    constructor (blocks: seq<Block>)
      ensures start == blocks && this.blocks == blocks && held == [] && synced && trace == [] && Sound()
    {
      this.start, this.blocks, this.held, this.synced, this.trace := blocks, blocks, [], true, [];
      LeadsNowhere(View(blocks, [], true));
    }

    function Seen(): View
      reads this`blocks, this`held, this`synced
    {
      View(blocks, held, synced)
    }

    /** The trace tells how the store came to be as it is. */
    ghost predicate Sound()
      reads this
    {
      Leads(View(start, [], true), trace, Seen())
    }

    ghost predicate CanLock(b: nat)
      reads this
    {
      b < |blocks| && b !in held && |held| < MAX_HELD
    }

    method Lock(b: nat)
      requires CanLock(b) && Sound()
      modifies this`held, this`trace
      ensures Sound() && held == Pushed(old(held), b)
    {
      LeadsOn(View(start, [], true), trace, Seen(), LockOf(b));
      held := Pushed(held, b);
      trace := trace + [LockOf(b)];
    }

    method Unlock()
      requires held != [] && Sound()
      modifies this`held, this`trace
      ensures Sound() && held == old(held)[..|old(held)| - 1]
    {
      LeadsOn(View(start, [], true), trace, Seen(), UnlockLast);
      held := held[..|held| - 1];
      trace := trace + [UnlockLast];
    }

    /** Reads a block that is locked. */
    method Read(b: nat) returns (x: Block)
      requires b in held && b < |blocks| && Sound()
      modifies this`trace
      ensures Sound() && x == blocks[b]
    {
      x := blocks[b];
      LeadsOn(View(start, [], true), trace, Seen(), ReadOf(b, x));
      trace := trace + [ReadOf(b, x)];
    }

    /** Modifies a block that is locked. */
    method Write(b: nat, x: Block)
      requires b in held && b < |blocks| && Sound()
      modifies this`blocks, this`synced, this`trace
      ensures Sound() && blocks == old(blocks)[b := x]
    {
      LeadsOn(View(start, [], true), trace, Seen(), WriteOf(b, x));
      blocks := blocks[b := x];
      synced := false;
      trace := trace + [WriteOf(b, x)];
    }

    /** Brings the device up to date, locking every cached block in turn; the logical contents stay. */
    method SyncAll()
      requires held == [] && Sound()
      modifies this`synced, this`trace
      ensures Sound() && synced
    {
      LeadsOn(View(start, [], true), trace, Seen(), SyncDevice);
      synced := true;
      trace := trace + [SyncDevice];
    }

    /** Lock, read, unlock. */
    method Fetch(b: nat) returns (x: Block)
      requires CanLock(b) && Sound()
      modifies this`held, this`trace
      ensures Sound() && x == blocks[b] && held == old(held)
    {
      Lock(b);
      x := Read(b);
      Unlock();
    }

    /** Lock, modify, unlock. */
    method Put(b: nat, x: Block)
      requires CanLock(b) && Sound()
      modifies this
      ensures Sound() && blocks == old(blocks)[b := x] && held == old(held)
    {
      Lock(b);
      Write(b, x);
      Unlock();
    }
  }
}
