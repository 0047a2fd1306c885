/** Formatting a device and opening it again. */
module Format {
  import opened BlockViews
  import opened InodeTree
  import opened BlockStorage
  import opened Options
  import opened Bitmaps
  import opened DiskInodes
  import opened FileTrees
  import opened EasyFileSystems

  function SuperBlockWords(b: Block, s: SuperBlockData): (r: Block)
    requires s.magic < 0x1_0000_0000 && s.totalBlocks < 0x1_0000_0000 && s.inodeBitmapBlocks < 0x1_0000_0000
    requires s.inodeAreaBlocks < 0x1_0000_0000 && s.dataBitmapBlocks < 0x1_0000_0000 && s.dataAreaBlocks < 0x1_0000_0000
    ensures SuperBlock(r) == s
  {
    b[0 := s.magic][1 := s.totalBlocks][2 := s.inodeBitmapBlocks]
     [3 := s.inodeAreaBlocks][4 := s.dataBitmapBlocks][5 := s.dataAreaBlocks]
  }

  /** The layout of a device with `totalBlocks` blocks, as `create` computes it. */
  function Layout(totalBlocks: nat, inodeBitmapBlocks: nat): EasyFs
    requires Admissible(totalBlocks, inodeBitmapBlocks)
  {
    var inodeBitmap := Bitmap(1, inodeBitmapBlocks);
    var inodeAreaBlocks := DivCeil(inodeBitmap.Maximum() * INODE_SIZE, BLOCK_SZ);
    var inodeTotalBlocks := inodeBitmapBlocks + inodeAreaBlocks;
    var dataTotalBlocks := totalBlocks - 1 - inodeTotalBlocks;
    var dataBitmapBlocks := DivCeil(dataTotalBlocks, 4097);
    EasyFs(inodeBitmap, Bitmap(1 + inodeTotalBlocks, dataBitmapBlocks),
           1 + inodeBitmapBlocks, 1 + inodeTotalBlocks + dataBitmapBlocks)
  }

  /** There is room for the super block, the inode bitmap and the inodes it covers, and inode numbers fit 32 bits. */
  predicate Admissible(totalBlocks: nat, inodeBitmapBlocks: nat) {
    1 <= inodeBitmapBlocks <= 0x10_0000 && 1 + inodeBitmapBlocks * 1025 <= totalBlocks < 0x1_0000_0000
  }

  /** The five regions are disjoint, fill the device, and each bitmap covers its area. */
  lemma LayoutRegions(totalBlocks: nat, inodeBitmapBlocks: nat)
    requires Admissible(totalBlocks, inodeBitmapBlocks)
    ensures var fs := Layout(totalBlocks, inodeBitmapBlocks);
            && fs.Geometry(totalBlocks)
            && 1 + fs.inodeBitmap.blocks + fs.inodeBitmap.blocks * 1024 + fs.dataBitmap.blocks
               + (totalBlocks - fs.dataAreaStart) == totalBlocks
            && fs.InodeCount() == fs.inodeBitmap.blocks * 1024 * INODES_PER_BLOCK
            && totalBlocks - fs.dataAreaStart <= fs.dataBitmap.Maximum()
  {
    assert (inodeBitmapBlocks * 4096 * 128 + 511) / 512 == inodeBitmapBlocks * 1024;
    CeilCovers(totalBlocks - 1 - inodeBitmapBlocks * 1025);
  }

  lemma CeilCovers(n: nat)
    ensures DivCeil(n, 4097) <= n && n - DivCeil(n, 4097) <= DivCeil(n, 4097) * BLOCK_BITS
  {
    var q := DivCeil(n, 4097);
    assert 4097 * q <= n + 4096 < 4097 * q + 4097;
  }

  // ---- an empty device ----

  /** All blocks are zero but the super block. */
  ghost predicate Blank(blocks: seq<Block>) {
    forall b :: 1 <= b < |blocks| ==> IsZero(blocks[b])
  }

  lemma {:induction false} ZeroBits(i: nat)
    ensures !Bit(0, i)
  {
    if i > 0 { ZeroBits(i - 1); }
  }

  lemma BlankBits(bitmap: Bitmap, blocks: seq<Block>)
    requires Blank(blocks) && 1 <= bitmap.start && bitmap.start + bitmap.blocks <= |blocks|
    ensures forall bit :: 0 <= bit < bitmap.Maximum() ==> !bitmap.IsSet(blocks, bit)
  {
    forall bit | 0 <= bit < bitmap.Maximum()
      ensures !bitmap.IsSet(blocks, bit)
    {
      bitmap.IsSetAt(blocks, bit);
      var b := blocks[bitmap.start + bit / BLOCK_BITS];
      ZeroBlockViews(b);
      WordsBitAt(b, 0, bit % BLOCK_BITS);
      ZeroBits(bit % BLOCK_BITS % 64);
    }
  }

  lemma BlankInodes(fs: EasyFs, blocks: seq<Block>)
    requires fs.Geometry(|blocks|) && Blank(blocks)
    ensures forall i :: 0 <= i < fs.InodeCount() ==> fs.Inodes(blocks)[i] == Initialized(FILE)
  {
    forall i | 0 <= i < fs.InodeCount()
      ensures fs.Inodes(blocks)[i] == Initialized(FILE)
    {
      fs.InodeIs(blocks, i);
      ZeroBlockViews(blocks[fs.inodeAreaStart + i / INODES_PER_BLOCK]);
    }
  }

  lemma EmptyFile(d: Inode, blocks: seq<Block>)
    requires d.size == 0
    ensures FileOk(d, blocks) && Tree(d, blocks) == [] && Content(d, blocks) == []
  {
    assert DataIds(d, blocks) == [];
  }

  lemma EmptyTrees(inodes: seq<Inode>, blocks: seq<Block>, lo: nat)
    requires forall i :: 0 <= i < |inodes| ==> inodes[i].size == 0
    ensures Trees(inodes, blocks, map[], lo)
  {
    forall i | 0 <= i < |inodes|
      ensures FileOk(inodes[i], blocks) && Tree(inodes[i], blocks) == []
    {
      EmptyFile(inodes[i], blocks);
    }
  }

  // ---- create and open ----

  /** The state `create` leaves behind: one inode, the root directory, no file has any bytes. */
  ghost predicate Formatted(fs: EasyFs, blocks: seq<Block>) {
    && fs.Geometry(|blocks|) && fs.Consistent(blocks) && fs.SuperOk(blocks)
    && (forall i :: 0 <= i < fs.InodeCount() ==> (fs.inodeBitmap.IsSet(blocks, i) <==> i == 0))
    && fs.Inodes(blocks)[0].kind == DIRECTORY
    && (forall i :: 0 <= i < fs.InodeCount() ==> fs.File(blocks, i) == [])
    && fs.Used(blocks) == {}
  }

  /** From a zeroed device with super block to one with a root directory. */
  lemma RootMade(fs: EasyFs, b0: seq<Block>, b1: seq<Block>, b2: seq<Block>)
    requires fs.Geometry(|b0|) && Blank(b0) && fs.SuperOk(b0)
    requires fs.inodeBitmap.OnlyBitmapChanged(b0, b1)
    requires forall i :: 0 <= i < fs.InodeCount() ==> (fs.inodeBitmap.IsSet(b1, i) <==> i == 0)
    requires b2 == b1[fs.inodeAreaStart := WithInode(b1[fs.inodeAreaStart], 0, Initialized(DIRECTORY))]
    ensures Formatted(fs, b2)
  {
    RootBits(fs, b0, b1, b2);
    RootInodes(fs, b0, b1, b2);
    RootState(fs, b2);
  }

  lemma RootBits(fs: EasyFs, b0: seq<Block>, b1: seq<Block>, b2: seq<Block>)
    requires fs.Geometry(|b0|) && Blank(b0) && |b2| == |b1|
    requires fs.inodeBitmap.OnlyBitmapChanged(b0, b1)
    requires forall i :: 0 <= i < fs.InodeCount() ==> (fs.inodeBitmap.IsSet(b1, i) <==> i == 0)
    requires forall b :: 0 <= b < |b1| && b != fs.inodeAreaStart ==> b2[b] == b1[b]
    ensures forall i :: 0 <= i < fs.InodeCount() ==> (fs.inodeBitmap.IsSet(b2, i) <==> i == 0)
    ensures fs.BitsMatch(b2, {}) && fs.FreeZero(b2, {})
  {
    forall i | 0 <= i < fs.InodeCount()
      ensures fs.inodeBitmap.IsSet(b2, i) <==> i == 0
    {
      fs.inodeBitmap.IsSetAt(b1, i);
      fs.inodeBitmap.IsSetAt(b2, i);
    }
    BlankBits(fs.dataBitmap, b0);
    fs.BitsFrame(b0, b2, {});
  }

  lemma RootInodes(fs: EasyFs, b0: seq<Block>, b1: seq<Block>, b2: seq<Block>)
    requires fs.Geometry(|b0|) && Blank(b0)
    requires fs.inodeBitmap.OnlyBitmapChanged(b0, b1)
    requires b2 == b1[fs.inodeAreaStart := WithInode(b1[fs.inodeAreaStart], 0, Initialized(DIRECTORY))]
    ensures forall i :: 0 <= i < fs.InodeCount() ==>
              fs.Inodes(b2)[i] == if i == 0 then Initialized(DIRECTORY) else Initialized(FILE)
  {
    BlankInodes(fs, b0);
    forall i | 0 <= i < fs.InodeCount()
      ensures fs.Inodes(b2)[i] == if i == 0 then Initialized(DIRECTORY) else Initialized(FILE)
    {
      fs.InodeIs(b0, i);
      fs.InodeIs(b2, i);
      assert i == i / 4 * 4 + i % 4;
      assert fs.Inodes(b0)[i] == Initialized(FILE);
    }
  }

  lemma RootState(fs: EasyFs, blocks: seq<Block>)
    requires fs.Geometry(|blocks|) && fs.SuperOk(blocks)
    requires forall i :: 0 <= i < fs.InodeCount() ==>
               fs.Inodes(blocks)[i] == if i == 0 then Initialized(DIRECTORY) else Initialized(FILE)
    requires forall i :: 0 <= i < fs.InodeCount() ==> (fs.inodeBitmap.IsSet(blocks, i) <==> i == 0)
    requires fs.BitsMatch(blocks, {}) && fs.FreeZero(blocks, {})
    ensures Formatted(fs, blocks)
  {
    var owner: Owners := map[];
    assert owner.Keys == {};
    EmptyTrees(fs.Inodes(blocks), blocks, fs.dataAreaStart);
    assert fs.OwnedBy(blocks, owner);
    fs.UsedIs(blocks, {});
    forall i | 0 <= i < fs.InodeCount()
      ensures fs.File(blocks, i) == []
    {
      EmptyFile(fs.Inodes(blocks)[i], blocks);
    }
  }

  /** Formats the device. */
  method Create(store: BlockStore, totalBlocks: nat, inodeBitmapBlocks: nat) returns (fs: EasyFs)
    requires |store.blocks| == totalBlocks && Admissible(totalBlocks, inodeBitmapBlocks) && store.held == []
    requires store.Sound()
    modifies store
    ensures store.Sound() && store.synced
    ensures fs == Layout(totalBlocks, inodeBitmapBlocks)
    ensures store.held == [] && |store.blocks| == totalBlocks && Formatted(fs, store.blocks)
  {
    fs := Layout(totalBlocks, inodeBitmapBlocks);
    LayoutRegions(totalBlocks, inodeBitmapBlocks);
    for i := 0 to totalBlocks
      invariant store.held == [] && |store.blocks| == totalBlocks
      invariant store.Sound()
      invariant forall b :: 0 <= b < i ==> IsZero(store.blocks[b])
    {
      var x := store.Fetch(i);
      var z := ZeroFill(x);
      store.Put(i, z);
    }
    var s := store.Fetch(0);
    store.Put(0, SuperBlockWords(s, SuperBlockData(EFS_MAGIC, totalBlocks, inodeBitmapBlocks, inodeBitmapBlocks * 1024,
                                                   fs.dataBitmap.blocks, totalBlocks - fs.dataAreaStart)));
    ghost var b0 := store.blocks;
    BlankBits(fs.inodeBitmap, b0);
    assert !fs.inodeBitmap.IsSet(b0, 0);
    var root := AllocInode(fs, store);
    assert root == 0;
    ghost var b1 := store.blocks;
    var (blockId, offset) := fs.GetDiskInodePos(0);
    var x := store.Fetch(blockId);
    store.Put(blockId, WithInode(x, offset / INODE_SIZE, Initialized(DIRECTORY)));
    RootMade(fs, b0, b1, store.blocks);
    store.SyncAll();
  }

  /** Takes the lowest free inode; there must be one. */
  method AllocInode(fs: EasyFs, store: BlockStore) returns (i: nat)
    requires fs.Geometry(|store.blocks|) && store.held == []
    requires exists j :: 0 <= j < fs.InodeCount() && !fs.inodeBitmap.IsSet(store.blocks, j)
    requires store.Sound()
    modifies store
    ensures store.Sound()
    ensures store.held == [] && fs.inodeBitmap.OnlyBitmapChanged(old(store.blocks), store.blocks)
    ensures i < fs.InodeCount() && !fs.inodeBitmap.IsSet(old(store.blocks), i)
    ensures fs.inodeBitmap.SetBelow(old(store.blocks), i)
    ensures forall j :: 0 <= j < fs.InodeCount() ==>
              (fs.inodeBitmap.IsSet(store.blocks, j) <==> j == i || fs.inodeBitmap.IsSet(old(store.blocks), j))
  {
    var pos := fs.inodeBitmap.Alloc(store);
    if pos.None? {
      assert false;
    }
    i := pos.value;
  }

  /** Reads the layout back from the super block. */
  method Open(store: BlockStore) returns (fs: EasyFs)
    requires |store.blocks| > 0 && store.held == []
    requires SuperBlock(store.blocks[0]).magic == EFS_MAGIC
    requires store.Sound()
    modifies store`held, store`trace
    ensures store.Sound()
    ensures store.held == []
    ensures forall made: EasyFs :: made.Geometry(|store.blocks|) && made.SuperOk(store.blocks) ==> fs == made
  {
    var b := store.Fetch(0);
    var s := SuperBlock(b);
    var inodeTotalBlocks := s.inodeBitmapBlocks + s.inodeAreaBlocks;
    fs := EasyFs(Bitmap(1, s.inodeBitmapBlocks), Bitmap(1 + inodeTotalBlocks, s.dataBitmapBlocks),
                 1 + s.inodeBitmapBlocks, 1 + inodeTotalBlocks + s.dataBitmapBlocks);
  }
}
