/** The disk layout of the file system, its allocators, and the invariant that ties bitmaps to block trees.

    Block 0 is the super block; then follow the inode bitmap, the inode area, the data bitmap and the data area.
  */
module EasyFileSystems {
  import opened BlockViews
  import opened InodeTree
  import opened BlockStorage
  import opened Options
  import opened Bitmaps
  import opened DiskInodes
  import opened FileTrees

  const INODES_PER_BLOCK: nat := 4
  const INODE_SIZE: nat := 128

  /** What ties the allocation state to the inodes. */
  datatype Law = TreesMatchOwners | BitsMatchOwners | FreeBlocksZero

  datatype EasyFs = EasyFs(inodeBitmap: Bitmap, dataBitmap: Bitmap, inodeAreaStart: nat, dataAreaStart: nat) {

    function InodeCount(): nat { inodeBitmap.Maximum() }

    /** The regions follow one another, the bitmaps cover their areas, and inode numbers fit 32 bits. */
    predicate Geometry(n: nat) {
      && inodeBitmap.start == 1 && 1 <= inodeBitmap.blocks && InodeCount() <= 0x1_0000_0000
      && inodeAreaStart == 1 + inodeBitmap.blocks
      && dataBitmap.start == inodeAreaStart + inodeBitmap.blocks * 1024
      && dataAreaStart == dataBitmap.start + dataBitmap.blocks
      && dataAreaStart <= n < 0x1_0000_0000
      && n - dataAreaStart <= dataBitmap.Maximum()
    }

    /** Block and byte offset of an inode. */
    function GetDiskInodePos(i: nat): (nat, nat) {
      (inodeAreaStart + i / INODES_PER_BLOCK, i % INODES_PER_BLOCK * INODE_SIZE)
    }

    function InodeAt(blocks: seq<Block>, i: nat): Inode
      requires inodeAreaStart + i / INODES_PER_BLOCK < |blocks|
    {
      InodeIn(blocks[inodeAreaStart + i / INODES_PER_BLOCK], i % INODES_PER_BLOCK)
    }

    lemma InodeInArea(n: nat, i: nat)
      requires Geometry(n) && i < InodeCount()
      ensures inodeAreaStart <= inodeAreaStart + i / INODES_PER_BLOCK < dataBitmap.start <= n
    {
    }

    /** Records i, i + 1, ..., n in all. */
    function InodesFrom(blocks: seq<Block>, i: nat, n: nat): (ds: seq<Inode>)
      requires Geometry(|blocks|) && i + n <= InodeCount()
      ensures |ds| == n
      ensures forall j {:trigger InodeAt(blocks, j)} :: i <= j < i + n ==>
                inodeAreaStart + j / INODES_PER_BLOCK < |blocks| && ds[j - i] == InodeAt(blocks, j)
      decreases n
    {
      if n == 0 then []
      else
        InodeInArea(|blocks|, i);
        [InodeAt(blocks, i)] + InodesFrom(blocks, i + 1, n - 1)
    }

    function Inodes(blocks: seq<Block>): (ds: seq<Inode>)
      requires Geometry(|blocks|)
      ensures |ds| == InodeCount()
      ensures forall i {:trigger InodeAt(blocks, i)} :: 0 <= i < |ds| ==>
                inodeAreaStart + i / INODES_PER_BLOCK < |blocks| && ds[i] == InodeAt(blocks, i)
    {
      InodesFrom(blocks, 0, InodeCount())
    }

    lemma InodeIs(blocks: seq<Block>, i: nat)
      requires Geometry(|blocks|) && i < InodeCount()
      ensures inodeAreaStart <= inodeAreaStart + i / INODES_PER_BLOCK < dataBitmap.start <= |blocks|
      ensures Inodes(blocks)[i] == InodeAt(blocks, i)
    {
      InodeInArea(|blocks|, i);
    }

    // ---- bits and blocks ----

    /** The data-bitmap bit that stands for block b. */
    predicate DataBit(blocks: seq<Block>, b: nat)
      requires Geometry(|blocks|) && dataAreaStart <= b < dataAreaStart + dataBitmap.Maximum()
    {
      dataBitmap.IsSet(blocks, b - dataAreaStart)
    }

    /** A data-bitmap bit is set exactly when its block is in `used`. */
    ghost predicate BitsMatch(blocks: seq<Block>, used: set<u32>)
      requires Geometry(|blocks|)
    {
      && (forall b :: dataAreaStart <= b < dataAreaStart + dataBitmap.Maximum() ==> (DataBit(blocks, b) <==> b in used))
      && (forall b :: b in used ==> dataAreaStart <= b < |blocks|)
    }

    ghost predicate FreeZero(blocks: seq<Block>, used: set<u32>) {
      forall b {:trigger IsZero(blocks[b])} :: dataAreaStart <= b < |blocks| && b !in used ==> IsZero(blocks[b])
    }

    /** Inode records `inodes` (one of which may be ahead of the disk) whose trees take exactly the allocated blocks. */
    ghost predicate State(blocks: seq<Block>, inodes: seq<Inode>, owner: Owners) {
      && Geometry(|blocks|) && |inodes| == InodeCount()
      && forall law: Law :: Holds(law, blocks, inodes, owner)
    }

    ghost predicate Holds(law: Law, blocks: seq<Block>, inodes: seq<Inode>, owner: Owners)
      requires Geometry(|blocks|)
    {
      match law
      case TreesMatchOwners => Trees(inodes, blocks, owner, dataAreaStart)
      case BitsMatchOwners => BitsMatch(blocks, owner.Keys)
      case FreeBlocksZero => FreeZero(blocks, owner.Keys)
    }

    lemma Laws(blocks: seq<Block>, inodes: seq<Inode>, owner: Owners)
      requires State(blocks, inodes, owner)
      ensures Trees(inodes, blocks, owner, dataAreaStart) && BitsMatch(blocks, owner.Keys)
              && FreeZero(blocks, owner.Keys)
    {
      assert Holds(TreesMatchOwners, blocks, inodes, owner);
      assert Holds(BitsMatchOwners, blocks, inodes, owner);
      assert Holds(FreeBlocksZero, blocks, inodes, owner);
    }

    ghost predicate SuperOk(blocks: seq<Block>)
      requires Geometry(|blocks|)
    {
      SuperBlock(blocks[0]) == SuperBlockData(EFS_MAGIC, |blocks|, inodeBitmap.blocks, inodeBitmap.blocks * 1024,
                                              dataBitmap.blocks, |blocks| - dataAreaStart)
    }

    /** Free inode records are empty files. */
    ghost predicate FreeInodesEmpty(blocks: seq<Block>)
      requires Geometry(|blocks|)
    {
      forall i :: 0 <= i < InodeCount() && !inodeBitmap.IsSet(blocks, i) ==> Inodes(blocks)[i].size == 0
    }

    ghost predicate OwnedBy(blocks: seq<Block>, owner: Owners)
      requires Geometry(|blocks|)
    {
      && State(blocks, Inodes(blocks), owner)
      && SuperOk(blocks) && FreeInodesEmpty(blocks)
    }

    /** The invariant of the file system. */
    ghost predicate Consistent(blocks: seq<Block>) {
      Geometry(|blocks|) && exists owner: Owners :: OwnedBy(blocks, owner)
    }

    /** The content of file i. */
    ghost function File(blocks: seq<Block>, i: nat): seq<u8>
      requires Geometry(|blocks|) && i < InodeCount()
    {
      Content(Inodes(blocks)[i], blocks)
    }

    function FileTree(blocks: seq<Block>, i: nat): seq<u32>
      requires Geometry(|blocks|) && i < InodeCount()
    {
      Tree(Inodes(blocks)[i], blocks)
    }

    /** The blocks whose data-bitmap bit is set. */
    function Used(blocks: seq<Block>): set<u32>
      requires Geometry(|blocks|)
    {
      set b: u32 | dataAreaStart <= b < |blocks| && DataBit(blocks, b)
    }

    function Capacity(blocks: seq<Block>): int { |blocks| - dataAreaStart }

    lemma UsedIs(blocks: seq<Block>, used: set<u32>)
      requires Geometry(|blocks|) && BitsMatch(blocks, used)
      ensures Used(blocks) == used
    {
    }

    ghost predicate InSomeTree(blocks: seq<Block>, b: nat)
      requires Geometry(|blocks|)
    {
      exists i :: 0 <= i < InodeCount() && b in FileTree(blocks, i)
    }

    /** Nothing leaks: a bit is set exactly when its block occurs in the tree of some file. */
    lemma NoLeak(blocks: seq<Block>, b: nat)
      requires Consistent(blocks) && dataAreaStart <= b < dataAreaStart + dataBitmap.Maximum()
      ensures DataBit(blocks, b) <==> InSomeTree(blocks, b)
    {
      var owner: Owners :| OwnedBy(blocks, owner);
      Laws(blocks, Inodes(blocks), owner);
      var trees := AllTrees(Inodes(blocks), blocks);
      assert DataBit(blocks, b) <==> b in owner.Keys;
      if b in owner {
        assert b in trees[owner[b]] && trees[owner[b]] == FileTree(blocks, owner[b]);
      }
      forall i | 0 <= i < InodeCount() && b in FileTree(blocks, i)
        ensures b in owner
      {
        var k :| 0 <= k < |FileTree(blocks, i)| && FileTree(blocks, i)[k] == b;
        assert trees[i][k] == b;
      }
    }

    /** Nothing is shared: a block occurs at one place in one tree at most. */
    lemma NoShare(blocks: seq<Block>, i: nat, j: nat, k: nat, l: nat)
      requires Consistent(blocks) && i < InodeCount() && j < InodeCount()
      requires k < |FileTree(blocks, i)| && l < |FileTree(blocks, j)|
      requires FileTree(blocks, i)[k] == FileTree(blocks, j)[l]
      ensures i == j && k == l
    {
      var owner: Owners :| OwnedBy(blocks, owner);
      Laws(blocks, Inodes(blocks), owner);
      var trees := AllTrees(Inodes(blocks), blocks);
      assert owner[trees[i][k]] == i && owner[trees[j][l]] == j;
      assert FileOk(Inodes(blocks)[i], blocks);
    }

    // ---- frames ----

    ghost predicate SameBelow(before: seq<Block>, after: seq<Block>, n: nat) {
      |after| == |before| && forall b :: 0 <= b < n && b < |before| ==> after[b] == before[b]
    }

    lemma BitsFrame(before: seq<Block>, after: seq<Block>, used: set<u32>)
      requires Geometry(|before|) && |after| == |before| && BitsMatch(before, used)
      requires forall b :: dataBitmap.start <= b < dataAreaStart ==> after[b] == before[b]
      ensures BitsMatch(after, used)
    {
      forall b | dataAreaStart <= b < dataAreaStart + dataBitmap.Maximum()
        ensures DataBit(after, b) <==> b in used
      {
        dataBitmap.IsSetAt(before, b - dataAreaStart);
        dataBitmap.IsSetAt(after, b - dataAreaStart);
        assert DataBit(before, b) <==> b in used;
      }
    }

    lemma InodesFrame(before: seq<Block>, after: seq<Block>)
      requires Geometry(|before|) && SameBelow(before, after, dataBitmap.start)
      ensures Inodes(after) == Inodes(before)
      ensures FreeInodesEmpty(before) ==> FreeInodesEmpty(after)
      ensures SuperOk(before) ==> SuperOk(after)
    {
      forall i | 0 <= i < InodeCount()
        ensures Inodes(after)[i] == Inodes(before)[i]
        ensures inodeBitmap.IsSet(after, i) == inodeBitmap.IsSet(before, i)
      {
        InodeIs(before, i);
        InodeIs(after, i);
        inodeBitmap.IsSetAt(before, i);
        inodeBitmap.IsSetAt(after, i);
      }
    }

    /** Files live in the data area only. */
    lemma TreesFrame(inodes: seq<Inode>, before: seq<Block>, after: seq<Block>, owner: Owners)
      requires Trees(inodes, before, owner, dataAreaStart) && |after| == |before|
      requires forall b :: dataAreaStart <= b < |before| ==> after[b] == before[b]
      ensures Trees(inodes, after, owner, dataAreaStart)
      ensures forall i :: 0 <= i < |inodes| ==> Content(inodes[i], after) == Content(inodes[i], before)
    {
      OthersFrame(inodes, before, after, owner, dataAreaStart, |inodes|);
      assert AllTrees(inodes, after) == AllTrees(inodes, before);
    }

    // ---- allocators ----

    /** Locks are held outside bitmap and data area only, and there is room for one more. */
    ghost predicate HeldBelow(held: seq<nat>) {
      |held| < MAX_HELD && forall k :: 0 <= k < |held| ==> held[k] < dataBitmap.start
    }

    ghost predicate LowestFree(used: set<u32>, id: u32) {
      dataAreaStart <= id && id !in used && forall b :: dataAreaStart <= b < id ==> b in used
    }

    /** A free data block: on the device as long as not all of the data area is taken. */
    method AllocData(store: BlockStore, ghost used: set<u32>) returns (id: u32)
      requires Geometry(|store.blocks|) && BitsMatch(store.blocks, used) && |used| < Capacity(store.blocks)
      requires HeldBelow(store.held)
      requires store.Sound()
      modifies store
      ensures store.Sound()
      ensures store.held == old(store.held) && |store.blocks| == |old(store.blocks)|
      ensures LowestFree(used, id) && id < |store.blocks|
      ensures BitsMatch(store.blocks, used + {id})
      ensures dataBitmap.OnlyBitmapChanged(old(store.blocks), store.blocks)
    {
      var pos := dataBitmap.Alloc(store);
      if pos.None? || |store.blocks| - dataAreaStart <= pos.value {
        Exhausted(old(store.blocks), used, if pos.None? then dataBitmap.Maximum() else pos.value);
        assert false;
      }
      id := pos.value + dataAreaStart;
      TakenBits(old(store.blocks), store.blocks, used, pos.value);
    }

    /** When the first n bits are set and n covers the data area, every block is taken. */
    lemma Exhausted(blocks: seq<Block>, used: set<u32>, n: nat)
      requires Geometry(|blocks|) && BitsMatch(blocks, used)
      requires dataBitmap.SetBelow(blocks, n) && Capacity(blocks) <= n
      ensures Capacity(blocks) <= |used|
    {
      forall b | dataAreaStart <= b < |blocks|
        ensures b in used
      {
        assert DataBit(blocks, b);
      }
      RangeSize(used, dataAreaStart, |blocks|);
    }

    lemma TakenBits(before: seq<Block>, after: seq<Block>, used: set<u32>, p: nat)
      requires Geometry(|before|) && |after| == |before| && BitsMatch(before, used)
      requires p < dataBitmap.Maximum() && p < Capacity(before)
      requires !dataBitmap.IsSet(before, p) && dataBitmap.SetBelow(before, p)
      requires forall q :: 0 <= q < dataBitmap.Maximum() ==>
                 (dataBitmap.IsSet(after, q) <==> q == p || dataBitmap.IsSet(before, q))
      ensures BitsMatch(after, used + {p + dataAreaStart})
      ensures LowestFree(used, p + dataAreaStart)
    {
      forall b | dataAreaStart <= b < dataAreaStart + dataBitmap.Maximum()
        ensures DataBit(after, b) <==> b in used + {p + dataAreaStart}
        ensures b < p + dataAreaStart ==> b in used
      {
        assert DataBit(before, b) <==> b in used;
      }
      assert !DataBit(before, p + dataAreaStart);
    }

    /** Zeroes a block and gives it back. */
    method DeallocData(id: u32, store: BlockStore, ghost used: set<u32>)
      requires Geometry(|store.blocks|) && BitsMatch(store.blocks, used) && id in used
      requires HeldBelow(store.held)
      requires store.Sound()
      modifies store
      ensures store.Sound()
      ensures store.held == old(store.held) && |store.blocks| == |old(store.blocks)|
      ensures BitsMatch(store.blocks, used - {id}) && IsZero(store.blocks[id])
      ensures forall b ::
                0 <= b < |store.blocks| && !(dataBitmap.start <= b < dataAreaStart) && b != id ==>
                  store.blocks[b] == old(store.blocks)[b]
    {
      var x := store.Fetch(id);
      var z := ZeroFill(x);
      store.Put(id, z);
      BitsFrame(old(store.blocks), store.blocks, used);
      ghost var mid := store.blocks;
      assert DataBit(mid, id);
      dataBitmap.Dealloc(id - dataAreaStart, store);
      FreedBits(mid, store.blocks, used, id);
    }

    lemma FreedBits(before: seq<Block>, after: seq<Block>, used: set<u32>, id: u32)
      requires Geometry(|before|) && |after| == |before| && BitsMatch(before, used) && id in used
      requires forall q :: 0 <= q < dataBitmap.Maximum() ==>
                 (dataBitmap.IsSet(after, q) <==> q != id - dataAreaStart && dataBitmap.IsSet(before, q))
      ensures BitsMatch(after, used - {id})
    {
      forall b | dataAreaStart <= b < dataAreaStart + dataBitmap.Maximum()
        ensures DataBit(after, b) <==> b in used - {id}
      {
        assert DataBit(before, b) <==> b in used;
      }
    }
  }

  lemma {:induction false} RangeSize(s: set<u32>, lo: nat, hi: nat)
    requires lo <= hi && forall b :: lo <= b < hi ==> b in s
    ensures hi - lo <= |s|
    decreases hi - lo
  {
    if lo < hi {
      RangeSize(s - {lo}, lo + 1, hi);
    }
  }

  // ---- super block ----

  const EFS_MAGIC: u32 := 0x3b800001

  datatype SuperBlockData = SuperBlockData(magic: nat, totalBlocks: nat, inodeBitmapBlocks: nat,
                                           inodeAreaBlocks: nat, dataBitmapBlocks: nat, dataAreaBlocks: nat)

  function SuperBlock(b: Block): SuperBlockData {
    SuperBlockData(b[0], b[1], b[2], b[3], b[4], b[5])
  }
}
