/** The write-back cache: at most sixteen blocks, pinned by the references that are out, written back on
    eviction and on demand. The cache is invisible: `Logical` is what every reader sees.
  */
module BlockCaches {
  import opened BlockViews
  import opened BlockStorage

  const BLOCK_CACHE_SIZE: nat := 16

  class BlockDevice {
    var blocks: seq<Block>

    constructor (blocks: seq<Block>)
      ensures this.blocks == blocks
    {
      this.blocks := blocks;
    }

    method ReadBlock(b: nat) returns (x: Block)
      requires b < |blocks|
      ensures x == blocks[b]
    {
      x := blocks[b];
    }

    method WriteBlock(b: nat, x: Block)
      requires b < |blocks|
      modifies this
      ensures blocks == old(blocks)[b := x]
    {
      blocks := blocks[b := x];
    }
  }

  /** A block in memory. `refs` counts the references handed out, the manager's own not included. */
  class BlockCache {
    const blockId: nat
    const device: BlockDevice
    var cache: Block
    var modified: bool
    var refs: nat

    constructor (blockId: nat, device: BlockDevice)
      requires blockId < |device.blocks|
      ensures this.blockId == blockId && this.device == device
      ensures cache == device.blocks[blockId] && !modified && refs == 0
    {
      this.blockId, this.device := blockId, device;
      this.cache, this.modified, this.refs := device.blocks[blockId], false, 0;
    }

    method Retain()
      modifies this`refs
      ensures refs == old(refs) + 1
    {
      refs := refs + 1;
    }

    method Release()
      requires refs > 0
      modifies this`refs
      ensures refs == old(refs) - 1
    {
      refs := refs - 1;
    }

    /** Writes the block back if it is dirty. */
    method Sync()
      requires blockId < |device.blocks|
      modifies this`modified, device
      ensures !modified
      ensures device.blocks == if old(modified) then old(device.blocks)[blockId := cache] else old(device.blocks)
    {
      if modified {
        modified := false;
        device.WriteBlock(blockId, cache);
      }
    }
  }

  ghost predicate FirstUnpinned(refs: seq<nat>, i: nat) {
    i < |refs| && refs[i] == 0 && forall j :: 0 <= j < i ==> refs[j] > 0
  }

  /** The queue after making room for one more entry. */
  ghost predicate RoomMade(before: seq<BlockCache>, refs: seq<nat>, after: seq<BlockCache>)
    requires |refs| == |before|
  {
    if |before| < BLOCK_CACHE_SIZE then after == before
    else exists i: nat :: FirstUnpinned(refs, i) && after == before[..i] + before[i + 1..]
  }

  /** Pinned entries survive the making of room, and nothing new appears. */
  lemma RoomKeeps(before: seq<BlockCache>, refs: seq<nat>, after: seq<BlockCache>)
    requires |refs| == |before| && RoomMade(before, refs, after)
    ensures forall i :: 0 <= i < |before| && refs[i] > 0 ==> before[i] in after
    ensures forall i :: 0 <= i < |after| ==> after[i] in before
  {
    if |before| == BLOCK_CACHE_SIZE {
      var k: nat :| FirstUnpinned(refs, k) && after == before[..k] + before[k + 1..];
      forall i | 0 <= i < |before| && refs[i] > 0
        ensures before[i] in after
      {
        assert after[if i < k then i else i - 1] == before[i];
      }
    }
  }

  class BlockCacheManager {
    const device: BlockDevice
    var queue: seq<BlockCache>

    constructor (device: BlockDevice)
      ensures Valid() && this.device == device && queue == []
      ensures Logical() == device.blocks
    {
      this.device, this.queue := device, [];
    }

    /** One cache per block, and only dirty blocks differ from the device. */
    ghost predicate Valid()
      reads this, device, queue
    {
      && |queue| <= BLOCK_CACHE_SIZE
      && (forall i :: 0 <= i < |queue| ==> Entry(queue[i]))
      && OnePerBlock()
    }

    ghost predicate OnePerBlock()
      reads this
    {
      forall i, j :: 0 <= i < j < |queue| ==> queue[i].blockId != queue[j].blockId
    }

    ghost predicate Entry(e: BlockCache)
      reads device, e
    {
      && e.device == device && e.blockId < |device.blocks|
      && (!e.modified ==> e.cache == device.blocks[e.blockId])
    }

    ghost predicate Cached(b: nat)
      reads this
    {
      exists i :: 0 <= i < |queue| && queue[i].blockId == b
    }

    /** The content of block b as a reader sees it. */
    ghost function BlockSeen(b: nat): Block
      requires b < |device.blocks|
      reads this, device, queue
    {
      if Cached(b) then
        var i :| 0 <= i < |queue| && queue[i].blockId == b;
        queue[i].cache
      else device.blocks[b]
    }

    ghost function Logical(): (s: seq<Block>)
      reads this, device, queue
      ensures |s| == |device.blocks|
      ensures forall b :: 0 <= b < |s| ==> s[b] == BlockSeen(b)
    {
      seq(|device.blocks|, b requires 0 <= b < |device.blocks| reads this, device, queue => BlockSeen(b))
    }

    lemma SeenInQueue(i: nat)
      requires Valid() && i < |queue|
      ensures queue[i].blockId < |device.blocks| && BlockSeen(queue[i].blockId) == queue[i].cache
    {
      assert Entry(queue[i]) && OnePerBlock();
    }

    lemma AllSeen()
      requires Valid()
      ensures forall i :: 0 <= i < |queue| ==>
              queue[i].blockId < |device.blocks| && Logical()[queue[i].blockId] == queue[i].cache
    {
      forall i | 0 <= i < |queue|
        ensures queue[i].blockId < |device.blocks| && Logical()[queue[i].blockId] == queue[i].cache
      {
        SeenInQueue(i);
      }
    }

    /** Some entry can be replaced, or none has to be. */
    ghost predicate CanGet(b: nat)
      reads this, device, queue
    {
      Cached(b) || |queue| < BLOCK_CACHE_SIZE || exists i :: 0 <= i < |queue| && queue[i].refs == 0
    }

    /** The position of the entry for block b. */
    method FindEntry(b: nat) returns (i: nat)
      ensures i <= |queue|
      ensures i < |queue| ==> queue[i].blockId == b
      ensures i == |queue| ==> !Cached(b)
    {
      i := 0;
      while i < |queue| && queue[i].blockId != b
        invariant i <= |queue|
        invariant forall j :: 0 <= j < i ==> queue[j].blockId != b
      {
        i := i + 1;
      }
    }

    /** The first entry that nobody but the manager refers to. */
    method FindUnpinned() returns (i: nat)
      requires exists j :: 0 <= j < |queue| && queue[j].refs == 0
      ensures i < |queue| && queue[i].refs == 0 && forall j :: 0 <= j < i ==> queue[j].refs > 0
    {
      i := 0;
      while queue[i].refs > 0
        invariant i < |queue| && forall j :: 0 <= j < i ==> queue[j].refs > 0
        decreases |queue| - i
      {
        i := i + 1;
      }
    }

    /** Takes entry i out of the queue; dropping it writes it back. */
    method Evict(i: nat)
      requires Valid() && i < |queue|
      modifies this, device, queue[i]
      ensures Valid() && Logical() == old(Logical())
      ensures queue == old(queue)[..i] + old(queue)[i + 1..]
      ensures forall e :: e in old(queue) ==> e.refs == old(e.refs)
      ensures old(device.blocks) == old(Logical()) ==> device.blocks == old(device.blocks)
    {
      var e := queue[i];
      assert Entry(e) && OnePerBlock();
      ghost var before, q := Logical(), queue;
      AllSeen();
      queue := queue[..i] + queue[i + 1..];
      e.Sync();
      assert old(device.blocks) == before ==> device.blocks == old(device.blocks);
      forall b | 0 <= b < |before| && !Cached(b)
        ensures device.blocks[b] == before[b]
      {
        if b != e.blockId {
          StillCached(q, i, b);
          assert !old(Cached(b)) && before[b] == old(device.blocks[b]);
        }
      }
      Unchanged(before);
    }

    lemma StillCached(q: seq<BlockCache>, i: nat, b: nat)
      requires i < |q| && queue == q[..i] + q[i + 1..] && !Cached(b) && b != q[i].blockId
      ensures forall j :: 0 <= j < |q| ==> q[j].blockId != b
    {
      forall j | 0 <= j < |q|
        ensures q[j].blockId != b
      {
        if j < i { assert queue[j] == q[j]; } else if j > i { assert queue[j - 1] == q[j]; }
      }
    }

    /** How to see that the logical contents are `s`. */
    lemma Unchanged(s: seq<Block>)
      requires Valid() && |s| == |device.blocks|
      requires forall i :: 0 <= i < |queue| ==> queue[i].blockId < |s| && queue[i].cache == s[queue[i].blockId]
      requires forall b :: 0 <= b < |s| && !Cached(b) ==> device.blocks[b] == s[b]
      ensures Logical() == s
    {
    }

    ghost function Refs(): (r: seq<nat>)
      reads this, queue
      ensures |r| == |queue| && forall i :: 0 <= i < |r| ==> r[i] == queue[i].refs
    {
      seq(|queue|, i requires 0 <= i < |queue| reads this, queue => queue[i].refs)
    }

    /** When the queue is full, the first entry nobody refers to is replaced. */
    method MakeRoom(b: nat)
      requires Valid() && CanGet(b) && !Cached(b)
      modifies this, device, queue
      ensures Valid() && Logical() == old(Logical()) && !Cached(b) && |queue| < BLOCK_CACHE_SIZE
      ensures RoomMade(old(queue), old(Refs()), queue)
      ensures forall e :: e in old(queue) ==> e.refs == old(e.refs)
      ensures old(device.blocks) == old(Logical()) ==> device.blocks == old(device.blocks)
    {
      if |queue| == BLOCK_CACHE_SIZE {
        var victim := FindUnpinned();
        Evict(victim);
        NotAdded(old(queue), victim, b);
        assert FirstUnpinned(old(Refs()), victim);
      }
    }

    /** A clean cache for a block that has none, at the end of the queue. */
    method Load(b: nat) returns (h: BlockCache)
      requires Valid() && b < |device.blocks| && !Cached(b) && |queue| < BLOCK_CACHE_SIZE
      modifies this`queue
      ensures Valid() && Logical() == old(Logical())
      ensures fresh(h) && queue == old(queue) + [h] && h.blockId == b && h.refs == 0
    {
      h := new BlockCache(b, device);
      assert OnePerBlock();
      ghost var before, q := Logical(), queue;
      AllSeen();
      queue := queue + [h];
      AppendedSame(q, h, before);
    }

    /** A new entry for a block that has none. */
    method Miss(b: nat) returns (h: BlockCache)
      requires Valid() && b < |device.blocks| && CanGet(b) && !Cached(b)
      modifies this, device, queue
      ensures Valid() && Logical() == old(Logical())
      ensures fresh(h) && h in queue && h.blockId == b && h.cache == Logical()[b] && h.refs == 0
      ensures |queue| > 0 && queue[|queue| - 1] == h && RoomMade(old(queue), old(Refs()), queue[..|queue| - 1])
      ensures forall e :: e in old(queue) ==> e.refs == old(e.refs) && (e.refs > 0 ==> e in queue)
      ensures forall e :: e in queue ==> e in old(queue) || e == h
      ensures old(device.blocks) == old(Logical()) ==> device.blocks == old(device.blocks)
    {
      ghost var before, refs := queue, Refs();
      MakeRoom(b);
      RoomKeeps(before, refs, queue);
      ghost var q := queue;
      h := Load(b);
      assert queue[..|queue| - 1] == q;
      SeenInQueue(|queue| - 1);
    }

    /** The cache of block b: the one in the queue, or a new one read from the device. */
    method GetBlockCache(b: nat) returns (h: BlockCache)
      requires Valid() && b < |device.blocks| && CanGet(b)
      modifies this, device, queue
      ensures Valid() && Logical() == old(Logical())
      ensures h in queue && h.blockId == b && h.cache == Logical()[b]
      ensures if old(Cached(b)) then queue == old(queue) && h.refs == old(h.refs) + 1
              else fresh(h) && h.refs == 1 && |queue| > 0 && queue[|queue| - 1] == h
                   && RoomMade(old(queue), old(Refs()), queue[..|queue| - 1])
      ensures forall e :: e in old(queue) && e != h ==> e.refs == old(e.refs) && (e.refs > 0 ==> e in queue)
      ensures forall e :: e in queue ==> e in old(queue) || e == h
      ensures old(device.blocks) == old(Logical()) ==> device.blocks == old(device.blocks)
    {
      var i := FindEntry(b);
      if i < |queue| {
        h := queue[i];
        SeenInQueue(i);
      } else {
        h := Miss(b);
      }
      Pin(h);
    }

    method Pin(h: BlockCache)
      requires Valid() && h in queue
      modifies h`refs
      ensures Valid() && Logical() == old(Logical()) && h.refs == old(h.refs) + 1
    {
      ghost var before := Logical();
      AllSeen();
      h.Retain();
      Unchanged(before);
    }

    method Unpin(h: BlockCache)
      requires Valid() && h in queue && h.refs > 0
      modifies h`refs
      ensures Valid() && Logical() == old(Logical()) && h.refs == old(h.refs) - 1
    {
      ghost var before := Logical();
      AllSeen();
      h.Release();
      Unchanged(before);
    }

    /** Adding a clean cache for a block that had none. */
    lemma AppendedSame(q: seq<BlockCache>, h: BlockCache, s: seq<Block>)
      requires queue == q + [h] && Entry(h) && !h.modified && |s| == |device.blocks|
      requires |q| < BLOCK_CACHE_SIZE && forall i :: 0 <= i < |q| ==> Entry(q[i]) && q[i].blockId != h.blockId
      requires forall i, j :: 0 <= i < j < |q| ==> q[i].blockId != q[j].blockId
      requires forall i :: 0 <= i < |q| ==> q[i].blockId < |s| && q[i].cache == s[q[i].blockId]
      requires forall b :: 0 <= b < |s| && (forall i :: 0 <= i < |q| ==> q[i].blockId != b) ==> device.blocks[b] == s[b]
      ensures Valid() && Logical() == s
    {
      forall b | 0 <= b < |s| && !Cached(b)
        ensures device.blocks[b] == s[b]
      {
        forall i | 0 <= i < |q|
          ensures q[i].blockId != b
        {
          assert queue[i] == q[i];
        }
      }
      assert queue[|q|] == h;
      Unchanged(s);
    }

    lemma NotAdded(q: seq<BlockCache>, i: nat, b: nat)
      requires i < |q| && queue == q[..i] + q[i + 1..] && forall j :: 0 <= j < |q| ==> q[j].blockId != b
      ensures !Cached(b)
    {
    }

    /** Modifies a cached block through a reference to it. */
    method Modify(h: BlockCache, x: Block)
      requires Valid() && h in queue && h.refs > 0
      modifies h`cache, h`modified
      ensures Valid() && h.blockId < |device.blocks|
      ensures Logical() == old(Logical())[h.blockId := x]
    {
      ghost var i :| 0 <= i < |queue| && queue[i] == h;
      assert Entry(queue[i]) && OnePerBlock();
      ghost var before := Logical();
      AllSeen();
      h.cache := x;
      h.modified := true;
      forall j | 0 <= j < |queue|
        ensures queue[j].blockId < |before| && queue[j].cache == before[h.blockId := x][queue[j].blockId]
      {
        if j != i { assert queue[j].blockId != h.blockId; }
      }
      Unchanged(before[h.blockId := x]);
    }

    /** Writes entry i back. */
    method SyncEntry(i: nat)
      requires Valid() && i < |queue|
      modifies device, queue[i]
      ensures Valid() && Logical() == old(Logical())
      ensures forall j :: 0 <= j < |queue| ==>
                && queue[j].cache == old(queue[j].cache) && queue[j].refs == old(queue[j].refs)
                && queue[j].modified == (j != i && old(queue[j].modified))
    {
      var e := queue[i];
      assert Entry(e) && OnePerBlock();
      ghost var before := Logical();
      AllSeen();
      e.Sync();
      Unchanged(before);
    }

    /** Writes all dirty blocks back: afterwards the device holds exactly the logical contents. */
    method SyncAll()
      requires Valid()
      modifies device, queue
      ensures Valid() && Logical() == old(Logical()) && device.blocks == Logical()
      ensures forall i :: 0 <= i < |queue| ==>
              queue[i].cache == old(queue[i].cache) && queue[i].refs == old(queue[i].refs)
    {
      for i := 0 to |queue|
        invariant Valid() && Logical() == old(Logical())
        invariant forall j :: 0 <= j < |queue| ==>
                  queue[j].cache == old(queue[j].cache) && queue[j].refs == old(queue[j].refs)
        invariant forall j :: 0 <= j < i ==> !queue[j].modified
      {
        SyncEntry(i);
      }
      AllClean();
    }

    lemma AllClean()
      requires Valid() && forall i :: 0 <= i < |queue| ==> !queue[i].modified
      ensures device.blocks == Logical()
    {
      forall b | 0 <= b < |device.blocks|
        ensures device.blocks[b] == Logical()[b]
      {
        if Cached(b) {
          var i :| 0 <= i < |queue| && queue[i].blockId == b;
          SeenInQueue(i);
          assert Entry(queue[i]);
        }
      }
    }
  }

  // ---- the store the file system works on ----

  predicate Distinct(s: seq<BlockCache>) { forall i, j :: 0 <= i < j < |s| ==> s[i] != s[j] }

  lemma {:induction false} DistinctWithin(s: seq<BlockCache>, t: seq<BlockCache>)
    requires Distinct(s) && forall i :: 0 <= i < |s| ==> s[i] in t
    ensures |s| <= |t|
  {
    if s != [] {
      var k :| 0 <= k < |t| && t[k] == s[0];
      var t' := t[..k] + t[k + 1..];
      forall i | 0 <= i < |s[1..]|
        ensures s[1..][i] in t'
      {
        var j :| 0 <= j < |t| && t[j] == s[i + 1];
        assert t'[if j < k then j else j - 1] == t[j];
      }
      DistinctWithin(s[1..], t');
    }
  }

  /** Nested use of the cache: up to three blocks are locked at a time, the last one first released. */
  class CachedStore {
    const manager: BlockCacheManager
    var handles: seq<BlockCache>
    ghost var synced: bool

    constructor (device: BlockDevice)
      ensures Valid() && manager.device == device && fresh(manager) && manager.queue == []
      ensures Seen() == View(device.blocks, [], true)
    {
      manager := new BlockCacheManager(device);
      handles := [];
      synced := true;
    }

    /** Exactly the locked caches are pinned. */
    ghost predicate Valid()
      reads this, manager, manager.device, manager.queue
    {
      && manager.Valid() && |handles| <= MAX_HELD && Distinct(handles)
      && (forall i :: 0 <= i < |handles| ==> handles[i] in manager.queue)
      && (forall e :: e in manager.queue ==> e.refs == if e in handles then 1 else 0)
      && (synced ==> manager.device.blocks == manager.Logical())
    }

    ghost function Contents(): seq<Block>
      reads this, manager, manager.device, manager.queue
    {
      manager.Logical()
    }

    ghost function Held(): (h: seq<nat>)
      reads this
      ensures |h| == |handles| && forall i :: 0 <= i < |h| ==> h[i] == handles[i].blockId
    {
      seq(|handles|, i requires 0 <= i < |handles| reads this => handles[i].blockId)
    }

    ghost function Seen(): View
      reads this, manager, manager.device, manager.queue
    {
      View(Contents(), Held(), synced)
    }

    /** With at most three blocks locked there is always an entry to evict. */
    lemma NeverOut(b: nat)
      requires Valid()
      ensures manager.CanGet(b)
    {
      var q := manager.queue;
      if |q| == BLOCK_CACHE_SIZE && forall i :: 0 <= i < |q| ==> q[i].refs > 0 {
        assert manager.OnePerBlock();
        DistinctWithin(q, handles);
      }
    }

    method Lock(b: nat)
      requires Valid() && Seen().Legal(LockOf(b))
      modifies this`handles, manager, manager.device, manager.queue
      ensures Valid() && Contents() == old(Contents()) && Held() == Pushed(old(Held()), b)
      ensures forall e :: e in manager.queue ==> e in old(manager.queue) || fresh(e)
    {
      NeverOut(b);
      assert forall i :: 0 <= i < |handles| ==> handles[i].blockId == Held()[i] != b;
      var h := manager.GetBlockCache(b);
      ghost var held := Held();
      handles := handles + [h];
      assert Held() == held + [b];
    }

    lemma HandleSeen(k: nat)
      requires Valid() && k < |handles|
      ensures Held()[k] < |Contents()| && Contents()[Held()[k]] == handles[k].cache && handles[k].refs == 1
    {
      var i :| 0 <= i < |manager.queue| && manager.queue[i] == handles[k];
      manager.SeenInQueue(i);
    }

    /** The position of a locked block among the locked ones. */
    method HandleOf(b: nat) returns (k: nat)
      requires b in Held()
      ensures k < |handles| && handles[k].blockId == b
    {
      assert exists i :: 0 <= i < |handles| && Held()[i] == b;
      k := 0;
      while handles[k].blockId != b
        invariant k < |handles| && forall i :: 0 <= i < k ==> handles[i].blockId != b
        decreases |handles| - k
      {
        k := k + 1;
      }
    }

    /** Reads a locked block. */
    method Read(b: nat) returns (x: Block)
      requires Valid() && b in Held()
      ensures b < |Contents()| && x == Contents()[b]
    {
      var k := HandleOf(b);
      HandleSeen(k);
      x := handles[k].cache;
    }

    /** Modifies a locked block. */
    method Write(b: nat, x: Block)
      requires Valid() && b in Held()
      modifies this`synced, manager.queue
      ensures Valid() && Held() == old(Held()) && b < |Contents()| && !synced
      ensures Contents() == old(Contents())[b := x]
    {
      var k := HandleOf(b);
      HandleSeen(k);
      manager.Modify(handles[k], x);
      synced := false;
    }

    method Unlock()
      requires Valid() && Held() != []
      modifies this`handles, manager.queue
      ensures Valid() && Contents() == old(Contents()) && Held() == old(Held())[..|old(Held())| - 1]
    {
      var h := handles[|handles| - 1];
      manager.Unpin(h);
      handles := handles[..|handles| - 1];
      assert forall e :: e in old(handles) && e != h ==> e in handles;
    }

    /** Nothing may be locked: the caches are locked one by one here. Afterwards the device is up to date. */
    method SyncAll()
      requires Valid() && Held() == []
      modifies this`synced, manager.device, manager.queue
      ensures Valid() && Contents() == old(Contents()) && Held() == [] && synced
      ensures manager.device.blocks == Contents()
    {
      manager.SyncAll();
      synced := true;
    }

    /** Any access: what there is to see changes as it should, and a read returns what there is to see. */
    method Perform(a: Access) returns (r: seq<Block>)
      requires Valid() && Seen().Legal(a)
      modifies this, manager, manager.device, manager.queue
      ensures Valid() && Seen() == old(Seen()).Next(a) && r == Returned(a)
      ensures forall e :: e in manager.queue ==> e in old(manager.queue) || fresh(e)
    {
      r := [];
      match a {
        case LockOf(b) =>
          Lock(b);
        case UnlockLast =>
          Unlock();
        case ReadOf(b, _) =>
          var x := Read(b);
          r := [x];
        case WriteOf(b, x) =>
          Write(b, x);
        case SyncDevice =>
          SyncAll();
      }
    }
  }

  // ---- whole runs over the cache ----

  /** What an access returned when it was recorded. */
  function Returned(a: Access): seq<Block> { if a.ReadOf? then [a.seen] else [] }

  function AllReturned(t: seq<Access>): seq<Block> {
    if t == [] then [] else AllReturned(t[..|t| - 1]) + Returned(t[|t| - 1])
  }

  /** Repeats recorded accesses over the cache, with up to three blocks locked at any time and whatever evictions they
      lead to: every read returns what was recorded, contents and locks come out the same, and if nothing was written
      after the last sync, the device itself holds the contents, so that a store opened on it later sees the same. */
  method Repeat(blocks: seq<Block>, t: seq<Access>, ghost w: View)
    returns (device: BlockDevice, store: CachedStore, answers: seq<Block>)
    requires Leads(View(blocks, [], true), t, w)
    ensures fresh(device) && fresh(store) && store.manager.device == device && store.Valid() && store.Seen() == w
    ensures answers == AllReturned(t) && (w.synced ==> device.blocks == w.blocks)
  {
    ghost var path :| IsPath(View(blocks, [], true), t, w, path);
    device := new BlockDevice(blocks);
    store := new CachedStore(device);
    answers := [];
    for i := 0 to |t|
      invariant fresh(store) && fresh(store.manager) && fresh(device) && store.manager.device == device
      invariant forall e :: e in store.manager.queue ==> fresh(e)
      invariant store.Valid() && store.Seen() == path[i] && answers == AllReturned(t[..i])
    {
      assert IsStep(path, t, i) && t[..i + 1][..i] == t[..i];
      var r := store.Perform(t[i]);
      answers := answers + r;
    }
    assert t[..|t|] == t;
  }
}
