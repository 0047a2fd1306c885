/** Files: reading, writing and clearing through an inode handle. */
module Vfs {
  import opened BlockViews
  import opened InodeTree
  import opened BlockStorage
  import opened Bitmaps
  import opened DiskInodes
  import opened FileTrees
  import opened EasyFileSystems
  import opened Sequences

  function ToSet(s: seq<u32>): set<u32> { set b | b in s }

  lemma {:induction false} ToSetSize(s: seq<u32>)
    requires NoDup(s)
    ensures |ToSet(s)| == |s|
  {
    if s != [] {
      var t, x := s[..|s| - 1], s[|s| - 1];
      assert s == t + [x] && x !in t;
      ToSetSize(t);
      assert ToSet(s) == ToSet(t) + {x};
    }
  }

  /** Blocks that bringing file d to at least `newSize` bytes takes out of the data area. */
  function Needed(d: Inode, newSize: nat): nat {
    if newSize < d.size then 0
    else
      TreeSizeMonotone(DataBlocks(d.size), DataBlocks(newSize));
      TotalBlocks(newSize) - TotalBlocks(d.size)
  }

  /** The blocks in use grew by what writing n bytes to file `id` needs. */
  ghost predicate Paid(fs: EasyFs, before: seq<Block>, after: seq<Block>, id: nat, offset: nat, n: nat)
    requires fs.Geometry(|before|) && fs.Geometry(|after|) && id < fs.InodeCount()
  {
    |fs.Used(after)| == |fs.Used(before)| + Needed(fs.Inodes(before)[id], offset + n)
  }

  /** An operation on file i leaves all other files, the kinds and the set of allocated inodes alone. */
  ghost predicate OnlyFile(fs: EasyFs, before: seq<Block>, after: seq<Block>, i: nat)
    requires fs.Geometry(|before|) && fs.Geometry(|after|)
  {
    && |after| == |before|
    && forall j :: 0 <= j < fs.InodeCount() ==>
      && (j != i ==> fs.File(after, j) == fs.File(before, j))
      && fs.Inodes(after)[j].kind == fs.Inodes(before)[j].kind
      && (fs.inodeBitmap.IsSet(after, j) <==> fs.inodeBitmap.IsSet(before, j))
  }

  // ---- an operation in progress: the inode record is in memory, its block locked ----

  /** The state of the disk while inode i is being modified: `d` is ahead of the record on disk. */
  ghost predicate Open(fs: EasyFs, start: seq<Block>, blocks: seq<Block>, owner: Owners, i: nat, d: Inode) {
    && fs.Geometry(|start|) && i < fs.InodeCount()
    && fs.SameBelow(start, blocks, fs.dataBitmap.start)
    && fs.State(blocks, fs.Inodes(start)[i := d], owner)
    && d.kind == fs.Inodes(start)[i].kind
    && (forall j :: 0 <= j < fs.InodeCount() && j != i ==> Content(fs.Inodes(start)[j], blocks) == fs.File(start, j))
  }

  lemma OpenFirst(fs: EasyFs, start: seq<Block>, owner: Owners, i: nat)
    requires fs.Geometry(|start|) && i < fs.InodeCount() && fs.OwnedBy(start, owner)
    ensures Open(fs, start, start, owner, i, fs.Inodes(start)[i])
  {
    UpdateSame(fs.Inodes(start), i);
  }

  lemma UpdateSame<T>(s: seq<T>, i: nat)
    requires i < |s|
    ensures s[i := s[i]] == s
  {
  }

  lemma UpdateTwice<T>(s: seq<T>, i: nat, x: T, y: T)
    requires i < |s|
    ensures s[i := x][i := y] == s[i := y]
  {
  }

  function PutInode(fs: EasyFs, blocks: seq<Block>, i: nat, d: Inode): seq<Block>
    requires fs.inodeAreaStart + i / INODES_PER_BLOCK < |blocks|
  {
    var b := fs.inodeAreaStart + i / INODES_PER_BLOCK;
    blocks[b := WithInode(blocks[b], i % INODES_PER_BLOCK, d)]
  }

  lemma PutInodeInodes(fs: EasyFs, blocks: seq<Block>, i: nat, d: Inode)
    requires fs.Geometry(|blocks|) && i < fs.InodeCount()
    ensures fs.inodeAreaStart + i / INODES_PER_BLOCK < |blocks|
    ensures fs.Inodes(PutInode(fs, blocks, i, d)) == fs.Inodes(blocks)[i := d]
  {
    fs.InodeInArea(|blocks|, i);
    var after := PutInode(fs, blocks, i, d);
    forall j | 0 <= j < fs.InodeCount()
      ensures fs.Inodes(after)[j] == if j == i then d else fs.Inodes(blocks)[j]
    {
      fs.InodeIs(blocks, j);
      fs.InodeIs(after, j);
      assert j == j / 4 * 4 + j % 4 && i == i / 4 * 4 + i % 4;
    }
  }

  /** Only the inode's own block changes, and it is neither the super block, nor a bitmap, nor data. */
  lemma PutInodeFrame(fs: EasyFs, blocks: seq<Block>, i: nat, d: Inode)
    requires fs.Geometry(|blocks|) && i < fs.InodeCount()
    ensures fs.inodeAreaStart + i / INODES_PER_BLOCK < |blocks|
    ensures var after := PutInode(fs, blocks, i, d);
            && (forall b :: 0 <= b < |blocks| && (b < fs.inodeAreaStart || fs.dataBitmap.start <= b) ==>
                 after[b] == blocks[b])
            && (fs.SuperOk(blocks) ==> fs.SuperOk(after))
            && (forall j :: 0 <= j < fs.InodeCount() ==> (fs.inodeBitmap.IsSet(after, j) <==>
                 fs.inodeBitmap.IsSet(blocks, j)))
  {
    fs.InodeInArea(|blocks|, i);
    var after := PutInode(fs, blocks, i, d);
    forall j | 0 <= j < fs.InodeCount()
      ensures fs.inodeBitmap.IsSet(after, j) <==> fs.inodeBitmap.IsSet(blocks, j)
    {
      fs.inodeBitmap.IsSetAt(after, j);
      fs.inodeBitmap.IsSetAt(blocks, j);
    }
  }

  /** Writing the record back ends the operation in a consistent state. */
  lemma Close(fs: EasyFs, start: seq<Block>, blocks: seq<Block>, owner: Owners, i: nat, d: Inode)
    requires Open(fs, start, blocks, owner, i, d)
    requires fs.SuperOk(start) && fs.FreeInodesEmpty(start) && fs.inodeBitmap.IsSet(start, i)
    ensures fs.inodeAreaStart + i / INODES_PER_BLOCK < |blocks|
    ensures var after := PutInode(fs, blocks, i, d);
            fs.OwnedBy(after, owner) && fs.File(after, i) == Content(d, blocks) && OnlyFile(fs, start, after, i)
            && fs.Inodes(after) == fs.Inodes(start)[i := d] && fs.Used(after) == owner.Keys
  {
    var after := PutInode(fs, blocks, i, d);
    var inodes := fs.Inodes(start)[i := d];
    fs.Laws(blocks, inodes, owner);
    fs.InodesFrame(start, blocks);
    PutInodeInodes(fs, blocks, i, d);
    PutInodeFrame(fs, blocks, i, d);
    fs.TreesFrame(inodes, blocks, after, owner);
    fs.BitsFrame(blocks, after, owner.Keys);
    fs.UsedIs(after, owner.Keys);
    BitmapFrame(fs, start, blocks);
    forall j | 0 <= j < fs.InodeCount() && j != i
      ensures fs.File(after, j) == fs.File(start, j)
    {
      assert inodes[j] == fs.Inodes(start)[j];
    }
  }

  lemma BitmapFrame(fs: EasyFs, before: seq<Block>, after: seq<Block>)
    requires fs.Geometry(|before|) && fs.SameBelow(before, after, fs.dataBitmap.start)
    ensures forall j :: 0 <= j < fs.InodeCount() ==> (fs.inodeBitmap.IsSet(after, j) <==>
              fs.inodeBitmap.IsSet(before, j))
  {
    forall j | 0 <= j < fs.InodeCount()
      ensures fs.inodeBitmap.IsSet(after, j) <==> fs.inodeBitmap.IsSet(before, j)
    {
      fs.inodeBitmap.IsSetAt(after, j);
      fs.inodeBitmap.IsSetAt(before, j);
    }
  }

  // ---- growing ----

  /** Takes `n` blocks out of the data area, one after the other. */
  method AllocBlocks(fs: EasyFs, n: nat, store: BlockStore, ghost owner: Owners) returns (v: seq<u32>)
    requires fs.Geometry(|store.blocks|) && fs.BitsMatch(store.blocks, owner.Keys)
    requires |owner| + n <= fs.Capacity(store.blocks)
    requires fs.HeldBelow(store.held)
    requires store.Sound()
    modifies store
    ensures store.Sound()
    ensures store.held == old(store.held) && |store.blocks| == |old(store.blocks)|
    ensures |v| == n && Fresh(fs, store.blocks, owner, v)
    ensures fs.BitsMatch(store.blocks, owner.Keys + ToSet(v))
    ensures fs.dataBitmap.OnlyBitmapChanged(old(store.blocks), store.blocks)
  {
    v := [];
    assert owner.Keys + ToSet(v) == owner.Keys;
    for k := 0 to n
      invariant store.held == old(store.held)
      invariant store.Sound()
      invariant |v| == k && |owner.Keys + ToSet(v)| == |owner| + k
      invariant fs.dataBitmap.OnlyBitmapChanged(old(store.blocks), store.blocks)
      invariant Fresh(fs, store.blocks, owner, v)
      invariant fs.BitsMatch(store.blocks, owner.Keys + ToSet(v))
    {
      var id := AllocOne(fs, store, owner, v, old(store.blocks));
      v := v + [id];
    }
  }

  /** One more block for the list `v` of those already taken. */
  method AllocOne(fs: EasyFs, store: BlockStore, ghost owner: Owners, ghost v: seq<u32>, ghost start: seq<Block>)
      returns (id: u32)
    requires fs.Geometry(|store.blocks|) && fs.BitsMatch(store.blocks, owner.Keys + ToSet(v))
    requires |owner.Keys + ToSet(v)| < fs.Capacity(store.blocks) && Fresh(fs, store.blocks, owner, v)
    requires fs.dataBitmap.OnlyBitmapChanged(start, store.blocks)
    requires fs.HeldBelow(store.held) && store.Sound()
    modifies store
    ensures store.Sound() && store.held == old(store.held) && |store.blocks| == |old(store.blocks)|
    ensures id !in owner.Keys + ToSet(v) && owner.Keys + ToSet(v + [id]) == owner.Keys + ToSet(v) + {id}
    ensures Fresh(fs, store.blocks, owner, v + [id]) && fs.BitsMatch(store.blocks, owner.Keys + ToSet(v) + {id})
    ensures fs.dataBitmap.OnlyBitmapChanged(start, store.blocks)
  {
    ghost var mid := store.blocks;
    id := fs.AllocData(store, owner.Keys + ToSet(v));
    FreshMore(fs, store.blocks, owner, v, id);
    OnlyBitmapTwice(fs.dataBitmap, start, mid, store.blocks);
  }

  lemma FreshMore(fs: EasyFs, blocks: seq<Block>, owner: Owners, v: seq<u32>, id: u32)
    requires Fresh(fs, blocks, owner, v)
    requires fs.dataAreaStart <= id < |blocks| && id !in owner.Keys + ToSet(v)
    ensures Fresh(fs, blocks, owner, v + [id])
    ensures owner.Keys + ToSet(v + [id]) == owner.Keys + ToSet(v) + {id}
  {
  }

  lemma OnlyBitmapTwice(m: Bitmap, a: seq<Block>, b: seq<Block>, c: seq<Block>)
    requires m.OnlyBitmapChanged(a, b) && m.OnlyBitmapChanged(b, c)
    ensures m.OnlyBitmapChanged(a, c)
  {
  }

  /** Distinct blocks of the data area that belong to nobody. */
  ghost predicate Fresh(fs: EasyFs, blocks: seq<Block>, owner: Owners, v: seq<u32>) {
    NoDup(v) && forall k :: 0 <= k < |v| ==> fs.dataAreaStart <= v[k] < |blocks| && v[k] !in owner
  }

  /** After the bitmap has handed out `v`, the tree can be grown with it. */
  lemma AllocatedWalkable(fs: EasyFs, before: seq<Block>, after: seq<Block>, inodes: seq<Inode>, owner: Owners, i: nat,
      v: seq<u32>, h: nat)
    requires fs.State(before, inodes, owner) && fs.dataBitmap.OnlyBitmapChanged(before, after) && i < |inodes|
    requires Fresh(fs, after, owner, v) && h < fs.dataAreaStart
    ensures Tree(inodes[i], after) == Tree(inodes[i], before) && InRange(Tree(inodes[i], after), |after|)
    ensures Walkable(Tree(inodes[i], after) + v, |after|, [h])
    ensures InRange(v, |after|) && forall k :: 0 <= k < |v| ==> IsZero(after[v[k]])
  {
    AllocatedState(fs, before, after, inodes, owner, i);
    TreeBlocks(inodes, after, owner, fs.dataAreaStart, i);
    AppendFresh(fs, after, owner, Tree(inodes[i], after), v, h);
    assert fs.Holds(FreeBlocksZero, before, inodes, owner);
  }

  lemma AppendFresh(fs: EasyFs, blocks: seq<Block>, owner: Owners, t: seq<u32>, v: seq<u32>, h: nat)
    requires NoDup(t) && InRange(t, |blocks|) && forall k :: 0 <= k < |t| ==> t[k] in owner && fs.dataAreaStart <= t[k]
    requires Fresh(fs, blocks, owner, v) && h < fs.dataAreaStart
    ensures Walkable(t + v, |blocks|, [h])
  {
  }

  lemma AllocatedState(fs: EasyFs, before: seq<Block>, after: seq<Block>, inodes: seq<Inode>, owner: Owners, i: nat)
    requires fs.State(before, inodes, owner) && fs.dataBitmap.OnlyBitmapChanged(before, after) && i < |inodes|
    ensures Trees(inodes, after, owner, fs.dataAreaStart)
    ensures Tree(inodes[i], after) == Tree(inodes[i], before)
    ensures forall j :: 0 <= j < |inodes| ==> Content(inodes[j], after) == Content(inodes[j], before)
  {
    assert fs.Holds(TreesMatchOwners, before, inodes, owner);
    fs.TreesFrame(inodes, before, after, owner);
    assert FileOk(inodes[i], before);
    TreeBlocks(inodes, before, owner, fs.dataAreaStart, i);
    FileFrame(inodes[i], before, after);
  }

  lemma GrewOpen(fs: EasyFs, start: seq<Block>, b0: seq<Block>, b1: seq<Block>, b2: seq<Block>,
                 owner: Owners, i: nat, d: Inode, d': Inode, v: seq<u32>)
    requires Open(fs, start, b0, owner, i, d) && fs.dataBitmap.OnlyBitmapChanged(b0, b1)
    requires Fresh(fs, b1, owner, v) && fs.BitsMatch(b1, owner.Keys + ToSet(v))
    requires Grew(d, b1, d', b2, v) && d'.kind == d.kind
    ensures Open(fs, start, b2, Adopted(owner, v, i), i, d')
    ensures Content(d', b2) == Padded(Content(d, b0), d'.size)
  {
    var inodes := fs.Inodes(start)[i := d];
    GrewState(fs, b0, b1, b2, inodes, owner, i, d', v);
    UpdateTwice(fs.Inodes(start), i, d, d');
    GrewOthers(fs, start, b0, b2, inodes, i);
    SameBelowTwice(fs, start, b0, b1, b2);
  }

  lemma GrewState(fs: EasyFs, b0: seq<Block>, b1: seq<Block>, b2: seq<Block>,
                  inodes: seq<Inode>, owner: Owners, i: nat, d': Inode, v: seq<u32>)
    requires fs.State(b0, inodes, owner) && fs.dataBitmap.OnlyBitmapChanged(b0, b1) && i < |inodes|
    requires Fresh(fs, b1, owner, v) && fs.BitsMatch(b1, owner.Keys + ToSet(v))
    requires Grew(inodes[i], b1, d', b2, v)
    ensures fs.State(b2, inodes[i := d'], Adopted(owner, v, i))
    ensures fs.SameBelow(b1, b2, fs.dataAreaStart)
    ensures Content(d', b2) == Padded(Content(inodes[i], b0), d'.size)
    ensures forall j :: 0 <= j < |inodes| && j != i ==> Content(inodes[j], b2) == Content(inodes[j], b0)
  {
    AllocatedState(fs, b0, b1, inodes, owner, i);
    GrowTrees(inodes, b1, owner, fs.dataAreaStart, i, d', b2, v);
    GrewBits(fs, b0, b1, b2, inodes, owner, i, d', v);
  }

  lemma SameBelowTwice(fs: EasyFs, start: seq<Block>, b0: seq<Block>, b1: seq<Block>, b2: seq<Block>)
    requires fs.SameBelow(start, b0, fs.dataBitmap.start) && fs.dataBitmap.OnlyBitmapChanged(b0, b1)
    requires fs.SameBelow(b1, b2, fs.dataAreaStart) && fs.dataBitmap.start <= fs.dataAreaStart
    ensures fs.SameBelow(start, b2, fs.dataBitmap.start)
  {
  }

  lemma GrewOthers(fs: EasyFs, start: seq<Block>, b0: seq<Block>, b2: seq<Block>, inodes: seq<Inode>, i: nat)
    requires fs.Geometry(|start|) && i < fs.InodeCount() && |inodes| == fs.InodeCount()
    requires forall j :: 0 <= j < |inodes| && j != i ==>
             inodes[j] == fs.Inodes(start)[j] && Content(inodes[j], b0) == fs.File(start, j)
    requires forall j :: 0 <= j < |inodes| && j != i ==> Content(inodes[j], b2) == Content(inodes[j], b0)
    ensures forall j :: 0 <= j < fs.InodeCount() && j != i ==> Content(fs.Inodes(start)[j], b2) == fs.File(start, j)
  {
  }

  lemma GrewBits(fs: EasyFs, b0: seq<Block>, b1: seq<Block>, b2: seq<Block>,
                 inodes: seq<Inode>, owner: Owners, i: nat, d': Inode, v: seq<u32>)
    requires fs.State(b0, inodes, owner) && fs.dataBitmap.OnlyBitmapChanged(b0, b1) && i < |inodes|
    requires Trees(inodes, b1, owner, fs.dataAreaStart)
    requires Fresh(fs, b1, owner, v) && fs.BitsMatch(b1, owner.Keys + ToSet(v))
    requires Grew(inodes[i], b1, d', b2, v)
    ensures fs.BitsMatch(b2, Adopted(owner, v, i).Keys)
    ensures fs.FreeZero(b2, Adopted(owner, v, i).Keys)
    ensures fs.SameBelow(b1, b2, fs.dataAreaStart)
  {
    var keys := Adopted(owner, v, i).Keys;
    assert keys == owner.Keys + ToSet(v);
    forall b | 0 <= b < |b1| && (b < fs.dataAreaStart || b !in keys)
      ensures b2[b] == b1[b]
    {
      NotIndex(fs, b1, b2, inodes, owner, i, d', v, b);
    }
    fs.Laws(b0, inodes, owner);
    fs.BitsFrame(b1, b2, keys);
  }

  /** A block outside the file is not an index block of it. */
  lemma NotIndex(fs: EasyFs, b1: seq<Block>, b2: seq<Block>, inodes: seq<Inode>, owner: Owners, i: nat, d': Inode,
      v: seq<u32>, b: nat)
    requires Trees(inodes, b1, owner, fs.dataAreaStart) && i < |inodes|
    requires Grew(inodes[i], b1, d', b2, v) && Fresh(fs, b1, owner, v)
    requires b < |b1| && (b < fs.dataAreaStart || (b !in owner && b !in ToSet(v)))
    ensures b2[b] == b1[b]
  {
    var t := AllTrees(inodes, b1)[i];
    var full := t + v;
    forall k | 0 <= k < |full|
      ensures full[k] != b
    {
      if k < |t| { assert t[k] in owner; } else { assert full[k] == v[k - |t|] && full[k] in ToSet(v); }
    }
    assert !IsIndexNode(full, b);
  }

  /** Makes the file at least `newSize` bytes long, filling up with zeros. */
  method IncreaseSize(fs: EasyFs, newSize: u32, d: DiskInode, store: BlockStore,
                      ghost start: seq<Block>, ghost owner: Owners, ghost i: nat)
    returns (ghost owner': Owners)
    requires Open(fs, start, store.blocks, owner, i, d.Value())
    requires DataBlocks(newSize) <= MAX_BLOCKS && |owner| + Needed(d.Value(), newSize) <= fs.Capacity(store.blocks)
    requires store.held == [fs.inodeAreaStart + i / INODES_PER_BLOCK]
    requires store.Sound()
    modifies d, store
    ensures store.Sound()
    ensures store.held == old(store.held)
    ensures d.size == Max(old(d.size), newSize)
    ensures Open(fs, start, store.blocks, owner', i, d.Value())
    ensures Content(d.Value(), store.blocks) == Padded(old(Content(d.Value(), store.blocks)), newSize)
    ensures |owner'| == |owner| + Needed(old(d.Value()), newSize) && Disowned(owner', i) == Disowned(owner, i)
  {
    if newSize < d.size {
      return owner;
    }
    ghost var inodes, b0, d0 := fs.Inodes(start)[i := d.Value()], store.blocks, d.Value();
    assert fs.Holds(BitsMatchOwners, b0, inodes, owner);
    fs.InodeInArea(|start|, i);
    var blocksNeeded := d.BlocksNumNeeded(newSize);
    var v := AllocBlocks(fs, blocksNeeded, store, owner);
    ghost var b1 := store.blocks;
    AllocatedWalkable(fs, b0, b1, inodes, owner, i, v, store.held[0]);
    assert v[..blocksNeeded] == v;
    d.IncreaseSize(newSize, v, store);
    assert Grew(d0, b1, d.Value(), store.blocks, v);
    GrewOpen(fs, start, b0, b1, store.blocks, owner, i, d0, d.Value(), v);
    owner' := Adopted(owner, v, i);
    AdoptedSize(owner, v, i);
  }

  lemma AdoptedSize(owner: Owners, v: seq<u32>, i: nat)
    requires NoDup(v) && forall k :: 0 <= k < |v| ==> v[k] !in owner
    ensures |Adopted(owner, v, i)| == |owner| + |v| && Disowned(Adopted(owner, v, i), i) == Disowned(owner, i)
  {
    ToSetSize(v);
    assert Adopted(owner, v, i).Keys == owner.Keys + ToSet(v);
    assert owner.Keys !! ToSet(v);
    assert |Adopted(owner, v, i)| == |Adopted(owner, v, i).Keys|;
  }

  // ---- writing ----

  lemma OpenWalkable(fs: EasyFs, start: seq<Block>, blocks: seq<Block>, owner: Owners, i: nat, d: Inode)
    requires Open(fs, start, blocks, owner, i, d)
    ensures DataBlocks(d.size) <= MAX_BLOCKS
    ensures Walkable(Tree(d, blocks), |blocks|, [fs.inodeAreaStart + i / INODES_PER_BLOCK])
  {
    fs.InodeInArea(|start|, i);
    fs.Laws(blocks, fs.Inodes(start)[i := d], owner);
    TreeBlocks(fs.Inodes(start)[i := d], blocks, owner, fs.dataAreaStart, i);
  }

  lemma TreeBlocks(inodes: seq<Inode>, blocks: seq<Block>, owner: Owners, lo: nat, i: nat)
    requires Trees(inodes, blocks, owner, lo) && i < |inodes|
    ensures FileOk(inodes[i], blocks)
    ensures forall k :: 0 <= k < |Tree(inodes[i], blocks)| ==>
              Tree(inodes[i], blocks)[k] in owner && owner[Tree(inodes[i], blocks)[k]] == i
                && lo <= Tree(inodes[i], blocks)[k]
  {
    var trees := AllTrees(inodes, blocks);
    forall k | 0 <= k < |Tree(inodes[i], blocks)|
      ensures Tree(inodes[i], blocks)[k] in owner && owner[Tree(inodes[i], blocks)[k]] == i
              && lo <= Tree(inodes[i], blocks)[k]
    {
      assert trees[i][k] in owner;
    }
  }

  lemma WroteOpen(fs: EasyFs, start: seq<Block>, before: seq<Block>, after: seq<Block>, owner: Owners, i: nat, d: Inode,
                  offset: nat, src: seq<u8>)
    requires Open(fs, start, before, owner, i, d)
    requires Wrote(d, before, after, offset, src) && offset + |src| <= d.size
    ensures Open(fs, start, after, owner, i, d)
    ensures Content(d, after) == Splice(Content(d, before), offset, src)
  {
    var inodes := fs.Inodes(start)[i := d];
    WroteState(fs, before, after, inodes, owner, i, offset, src);
    GrewOthers(fs, start, before, after, inodes, i);
    SameBelowTwice(fs, start, before, before, after);
  }

  lemma WroteState(fs: EasyFs, before: seq<Block>, after: seq<Block>, inodes: seq<Inode>, owner: Owners, i: nat,
                   offset: nat, src: seq<u8>)
    requires fs.State(before, inodes, owner) && i < |inodes|
    requires Wrote(inodes[i], before, after, offset, src) && offset + |src| <= inodes[i].size
    ensures fs.State(after, inodes, owner) && fs.SameBelow(before, after, fs.dataAreaStart)
    ensures Content(inodes[i], after) == Splice(Content(inodes[i], before), offset, src)
    ensures forall j :: 0 <= j < |inodes| && j != i ==> Content(inodes[j], after) == Content(inodes[j], before)
  {
    fs.Laws(before, inodes, owner);
    WriteTrees(inodes, before, owner, fs.dataAreaStart, i, after, offset, src);
    TreeBlocks(inodes, before, owner, fs.dataAreaStart, i);
    var t := Tree(inodes[i], before);
    forall b | 0 <= b < |before| && (b < fs.dataAreaStart || b !in owner.Keys)
      ensures after[b] == before[b]
    {
      assert !IsDataNode(t, b);
    }
    fs.BitsFrame(before, after, owner.Keys);
  }

  /** Writes over existing bytes of the file. */
  method Overwrite(fs: EasyFs, offset: nat, buf: seq<u8>, d: DiskInode, store: BlockStore,
                   ghost start: seq<Block>, ghost owner: Owners, ghost i: nat)
    returns (writeSize: nat)
    requires Open(fs, start, store.blocks, owner, i, d.Value())
    requires offset + |buf| <= d.size && offset / BLOCK_SZ < DataBlocks(d.size)
    requires store.held == [fs.inodeAreaStart + i / INODES_PER_BLOCK]
    requires store.Sound()
    modifies store
    ensures store.Sound()
    ensures store.held == old(store.held) && writeSize == |buf|
    ensures Open(fs, start, store.blocks, owner, i, d.Value())
    ensures Content(d.Value(), store.blocks) == Splice(old(Content(d.Value(), store.blocks)), offset, buf)
  {
    ghost var before, v := store.blocks, d.Value();
    OpenWalkable(fs, start, before, owner, i, v);
    writeSize := d.WriteAt(offset, buf, store);
    assert buf[0..|buf|] == buf;
    WroteOpen(fs, start, before, store.blocks, owner, i, v, offset, buf);
  }

  /** Grows the file as needed and writes. */
  method Update(fs: EasyFs, offset: nat, buf: seq<u8>, d: DiskInode, store: BlockStore,
                ghost start: seq<Block>, ghost owner: Owners, ghost i: nat)
    returns (writeSize: nat, ghost owner': Owners)
    requires Open(fs, start, store.blocks, owner, i, d.Value())
    requires offset / BLOCK_SZ < DataBlocks(Max(d.size, offset + |buf|)) && DataBlocks(offset + |buf|) <= MAX_BLOCKS
    requires |owner| + Needed(d.Value(), offset + |buf|) <= fs.Capacity(store.blocks)
    requires store.held == [fs.inodeAreaStart + i / INODES_PER_BLOCK]
    requires store.Sound()
    modifies d, store
    ensures store.Sound()
    ensures store.held == old(store.held) && writeSize == |buf|
    ensures Open(fs, start, store.blocks, owner', i, d.Value())
    ensures Content(d.Value(), store.blocks) == Written(old(Content(d.Value(), store.blocks)), offset, buf)
    ensures |owner'| == |owner| + Needed(old(d.Value()), offset + |buf|) && Disowned(owner', i) == Disowned(owner, i)
  {
    SizeFits(offset + |buf|);
    owner' := IncreaseSize(fs, offset + |buf|, d, store, start, owner, i);
    writeSize := Overwrite(fs, offset, buf, d, store, start, owner', i);
  }

  // ---- clearing ----

  /** Giving blocks back: `v` from position k on is still taken, the part before is zero and free. */
  ghost predicate Freeing(fs: EasyFs, before: seq<Block>, after: seq<Block>, kept: set<u32>, v: seq<u32>, k: nat)
    requires fs.Geometry(|before|) && k <= |v|
  {
    && |after| == |before|
    && (forall j :: 0 <= j < |v| ==> fs.dataAreaStart <= v[j])
    && fs.BitsMatch(after, kept + ToSet(v[k..]))
    && (forall b ::
         0 <= b < |before| && !(fs.dataBitmap.start <= b < fs.dataAreaStart) && b !in v[..k] ==> after[b] == before[b])
    && (forall b :: 0 <= b < |before| && b in v[..k] ==> IsZero(after[b]))
  }

  lemma FreeingMore(fs: EasyFs, b0: seq<Block>, b1: seq<Block>, b2: seq<Block>, kept: set<u32>, v: seq<u32>, k: nat)
    requires fs.Geometry(|b0|) && k < |v| && NoDup(v) && kept !! ToSet(v)
    requires Freeing(fs, b0, b1, kept, v, k)
    requires |b2| == |b1| && fs.dataAreaStart <= v[k] < |b2| && IsZero(b2[v[k]])
    requires fs.BitsMatch(b2, kept + ToSet(v[k..]) - {v[k]})
    requires forall b :: 0 <= b < |b1| && !(fs.dataBitmap.start <= b < fs.dataAreaStart) && b != v[k] ==> b2[b] == b1[b]
    ensures Freeing(fs, b0, b2, kept, v, k + 1)
  {
    FreedOne(kept, v, k);
    assert v[..k + 1] == v[..k] + [v[k]];
  }

  lemma FreedOne(kept: set<u32>, v: seq<u32>, k: nat)
    requires k < |v| && NoDup(v) && kept !! ToSet(v)
    ensures v[k] in kept + ToSet(v[k..])
    ensures kept + ToSet(v[k..]) - {v[k]} == kept + ToSet(v[k + 1..])
  {
    assert v[k..] == [v[k]] + v[k + 1..];
    assert v[k] !in v[k + 1..];
    assert v[k] in ToSet(v);
    TakeOut(kept, ToSet(v[k..]), ToSet(v[k + 1..]), v[k]);
  }

  lemma TakeOut<T>(a: set<T>, b: set<T>, c: set<T>, x: T)
    requires b == {x} + c && x !in a && x !in c
    ensures a + b - {x} == a + c
  {
  }

  /** Zeroes all blocks of `v` and gives them back. */
  method DeallocBlocks(fs: EasyFs, v: seq<u32>, store: BlockStore, ghost kept: set<u32>)
    requires fs.Geometry(|store.blocks|) && NoDup(v) && kept !! ToSet(v)
    requires fs.BitsMatch(store.blocks, kept + ToSet(v))
    requires fs.HeldBelow(store.held)
    requires store.Sound()
    modifies store
    ensures store.Sound()
    ensures store.held == old(store.held)
    ensures Freeing(fs, old(store.blocks), store.blocks, kept, v, |v|)
  {
    assert v[0..] == v;
    assert forall j :: 0 <= j < |v| ==> v[j] in kept + ToSet(v);
    for k := 0 to |v|
      invariant store.held == old(store.held)
      invariant store.Sound()
      invariant Freeing(fs, old(store.blocks), store.blocks, kept, v, k)
    {
      ghost var mid := store.blocks;
      FreedOne(kept, v, k);
      fs.DeallocData(v[k], store, kept + ToSet(v[k..]));
      FreeingMore(fs, old(store.blocks), mid, store.blocks, kept, v, k);
    }
  }

  /** The tree of file i goes back to the bitmap, every other tree stays where it is. */
  lemma ClearedState(fs: EasyFs, before: seq<Block>, after: seq<Block>, inodes: seq<Inode>, owner: Owners, i: nat,
      d': Inode)
    requires fs.State(before, inodes, owner) && i < |inodes| && d'.size == 0
    requires var t := Tree(inodes[i], before); Freeing(fs, before, after, Disowned(owner, i).Keys, t, |t|)
    ensures fs.State(after, inodes[i := d'], Disowned(owner, i)) && fs.SameBelow(before, after, fs.dataBitmap.start)
    ensures Content(d', after) == []
    ensures forall j :: 0 <= j < |inodes| && j != i ==> Content(inodes[j], after) == Content(inodes[j], before)
  {
    var t := Tree(inodes[i], before);
    fs.Laws(before, inodes, owner);
    TreeBlocks(inodes, before, owner, fs.dataAreaStart, i);
    FreeingDone(fs, before, after, Disowned(owner, i).Keys, t);
    ClearTrees(inodes, before, owner, fs.dataAreaStart, i, d');
    ClearedTrees(inodes, i, d', before, after, Disowned(owner, i), fs.dataAreaStart, t);
    ClearedFree(fs, before, after, inodes, owner, i);
  }

  lemma FreeingDone(fs: EasyFs, before: seq<Block>, after: seq<Block>, kept: set<u32>, v: seq<u32>)
    requires fs.Geometry(|before|) && Freeing(fs, before, after, kept, v, |v|)
    ensures fs.BitsMatch(after, kept) && fs.SameBelow(before, after, fs.dataBitmap.start)
    ensures ZeroedOnly(before, after, fs.dataAreaStart, v)
  {
    assert v[..|v|] == v && kept + ToSet(v[|v|..]) == kept;
  }

  ghost predicate ZeroedOnly(before: seq<Block>, after: seq<Block>, lo: nat, v: seq<u32>) {
    |after| == |before| && forall b :: lo <= b < |before| ==> if b in v then IsZero(after[b]) else after[b] == before[b]
  }

  lemma ClearedTrees(inodes: seq<Inode>, i: nat, d': Inode, before: seq<Block>, after: seq<Block>, owner: Owners,
      lo: nat, t: seq<u32>)
    requires i < |inodes| && Trees(inodes[i := d'], before, owner, lo) && d'.size == 0
    requires ZeroedOnly(before, after, lo, t) && forall k :: 0 <= k < |t| ==> t[k] !in owner
    ensures Trees(inodes[i := d'], after, owner, lo)
    ensures forall j :: 0 <= j < |inodes| && j != i ==> Content(inodes[j], after) == Content(inodes[j], before)
  {
    var inodes' := inodes[i := d'];
    OthersFrame(inodes', before, after, owner, lo, |inodes'|);
    assert AllTrees(inodes', after) == AllTrees(inodes', before);
    forall j | 0 <= j < |inodes| && j != i
      ensures Content(inodes[j], after) == Content(inodes[j], before)
    {
      assert inodes'[j] == inodes[j];
    }
  }

  lemma ClearedFree(fs: EasyFs, before: seq<Block>, after: seq<Block>, inodes: seq<Inode>, owner: Owners, i: nat)
    requires fs.State(before, inodes, owner) && i < |inodes|
    requires ZeroedOnly(before, after, fs.dataAreaStart, Tree(inodes[i], before))
    ensures fs.FreeZero(after, Disowned(owner, i).Keys)
  {
    var trees := AllTrees(inodes, before);
    fs.Laws(before, inodes, owner);
    forall b | fs.dataAreaStart <= b < |after| && b !in Disowned(owner, i).Keys
      ensures IsZero(after[b])
    {
      if b in owner { assert b in trees[owner[b]]; }
    }
  }

  // ---- file handles ----

  /** The data blocks taken by all files but i. */
  function OthersUsed(fs: EasyFs, blocks: seq<Block>, i: nat): set<u32>
    requires fs.Geometry(|blocks|) && i < fs.InodeCount()
  {
    fs.Used(blocks) - ToSet(fs.FileTree(blocks, i))
  }

  lemma OthersUsedIs(fs: EasyFs, blocks: seq<Block>, owner: Owners, i: nat)
    requires fs.Geometry(|blocks|) && fs.OwnedBy(blocks, owner) && i < fs.InodeCount()
    ensures OthersUsed(fs, blocks, i) == Disowned(owner, i).Keys
  {
    LoadedOwner(fs, blocks, owner);
    OpenFirst(fs, blocks, owner, i);
    ClearStart(fs, blocks, owner, i);
  }

  /** What a read of n bytes at `offset` delivers: less at the end of the file, nothing behind it. */
  function Part(s: seq<u8>, offset: nat, n: nat): seq<u8> {
    if offset < |s| then s[offset..Min(offset + n, |s|)] else []
  }

  /** An inode handle: the block and offset of the record on disk, and the file system it belongs to. */
  class VfsInode {
    const blockId: nat
    const blockOffset: nat
    const fs: EasyFs
    const store: BlockStore
    ghost const id: nat

    constructor (id: nat, fs: EasyFs, store: BlockStore)
      ensures this.fs == fs && this.store == store && this.id == id
      ensures (blockId, blockOffset) == fs.GetDiskInodePos(id)
    {
      this.blockId := fs.GetDiskInodePos(id).0;
      this.blockOffset := fs.GetDiskInodePos(id).1;
      this.fs, this.store, this.id := fs, store, id;
    }

    /** The file system is in good order, nobody holds a lock, and the handle is that of an allocated inode. */
    ghost predicate Valid()
      reads this, store`blocks, store`held
    {
      && fs.Consistent(store.blocks) && store.held == []
      && fs.Geometry(|store.blocks|) && id < fs.InodeCount() && fs.inodeBitmap.IsSet(store.blocks, id)
      && (blockId, blockOffset) == fs.GetDiskInodePos(id)
    }

    /** The bytes of this file. */
    ghost function Contents(): seq<u8>
      requires fs.Geometry(|store.blocks|) && id < fs.InodeCount()
      reads this, store`blocks
    {
      fs.File(store.blocks, id)
    }

    /** Locks the block of the inode record and takes a copy of the record. */
    method Load() returns (d: DiskInode, ghost owner: Owners)
      requires Valid()
      requires store.Sound()
      modifies store`held, store`trace
      ensures store.Sound()
      ensures fresh(d) && store.held == [blockId]
      ensures blockId == fs.inodeAreaStart + id / INODES_PER_BLOCK < |store.blocks|
      ensures d.Value() == fs.Inodes(store.blocks)[id]
      ensures fs.OwnedBy(store.blocks, owner) && fs.Used(store.blocks) == owner.Keys
      ensures Open(fs, store.blocks, store.blocks, owner, id, d.Value())
      ensures Walkable(Tree(d.Value(), store.blocks), |store.blocks|, store.held) && DataBlocks(d.size) <= MAX_BLOCKS
    {
      owner :| fs.OwnedBy(store.blocks, owner);
      fs.InodeIs(store.blocks, id);
      store.Lock(blockId);
      var x := store.Read(blockId);
      d := new DiskInode(InodeIn(x, blockOffset / INODE_SIZE));
      LoadedOwner(fs, store.blocks, owner);
      OpenFirst(fs, store.blocks, owner, id);
      OpenWalkable(fs, store.blocks, store.blocks, owner, id, d.Value());
    }

    /** Puts the record back and unlocks its block. */
    method Store(d: DiskInode, ghost start: seq<Block>, ghost owner: Owners)
      requires Open(fs, start, store.blocks, owner, id, d.Value())
      requires fs.SuperOk(start) && fs.FreeInodesEmpty(start) && fs.inodeBitmap.IsSet(start, id)
      requires store.held == [blockId] && (blockId, blockOffset) == fs.GetDiskInodePos(id)
      requires store.Sound()
      modifies store
      ensures store.Sound()
      ensures Valid() && OnlyFile(fs, start, store.blocks, id)
      ensures Contents() == Content(d.Value(), old(store.blocks))
      ensures fs.Inodes(store.blocks)[id] == d.Value()
      ensures fs.OwnedBy(store.blocks, owner) && fs.Used(store.blocks) == owner.Keys
    {
      ghost var before := store.blocks;
      fs.InodeInArea(|start|, id);
      var x := store.Read(blockId);
      store.Write(blockId, WithInode(x, blockOffset / INODE_SIZE, d.Value()));
      store.Unlock();
      assert store.blocks == PutInode(fs, before, id, d.Value());
      Close(fs, start, before, owner, id, d.Value());
    }

    /** Copies a part of the file into the buffer; nothing on disk changes. */
    method ReadAt(offset: nat, buf: array<u8>) returns (readSize: nat)
      requires Valid()
      requires store.Sound()
      modifies buf, store`held, store`trace
      ensures store.Sound()
      ensures Valid()
      ensures var part := Part(Contents(), offset, buf.Length);
              readSize == |part| && buf[..] == part + old(buf[..])[|part|..]
    {
      var d, owner := Load();
      readSize := d.ReadAt(offset, buf, store);
      store.Unlock();
      if readSize > 0 {
        CopiedPart(old(buf[..]), buf[..], d.Value(), store.blocks, offset, readSize);
      }
    }

    /** Room for a write: the file stays small enough and the data area has enough free blocks. */
    ghost predicate Fits(offset: nat, n: nat)
      requires fs.Geometry(|store.blocks|) && id < fs.InodeCount()
      reads this, store`blocks, store`held
    {
      && offset / BLOCK_SZ < DataBlocks(Max(|Contents()|, offset + n)) && DataBlocks(offset + n) <= MAX_BLOCKS
      && |fs.Used(store.blocks)| + Needed(fs.Inodes(store.blocks)[id], offset + n) <= fs.Capacity(store.blocks)
    }

    /** What a write to this file did to the file system. */
    twostate predicate WroteTo(offset: nat, buf: seq<u8>)
      reads this, store`blocks, store`held
    {
      && Valid()
      && old(fs.Geometry(|store.blocks|)) && OnlyFile(fs, old(store.blocks), store.blocks, id)
      && Contents() == Written(old(Contents()), offset, buf)
      && Paid(fs, old(store.blocks), store.blocks, id, offset, |buf|)
      && OthersUsed(fs, store.blocks, id) == old(OthersUsed(fs, store.blocks, id))
    }

    /** Grows the loaded record as needed, writes, and puts the record back. */
    method Modify(offset: nat, buf: seq<u8>, d: DiskInode, ghost owner: Owners) returns (writeSize: nat)
      requires fs.Geometry(|store.blocks|) && id < fs.InodeCount() && fs.inodeBitmap.IsSet(store.blocks, id)
      requires fs.OwnedBy(store.blocks, owner) && fs.Used(store.blocks) == owner.Keys
      requires d.Value() == fs.Inodes(store.blocks)[id] && Open(fs, store.blocks, store.blocks, owner, id, d.Value())
      requires store.held == [blockId] && (blockId, blockOffset) == fs.GetDiskInodePos(id)
      requires Fits(offset, |buf|)
      requires store.Sound()
      modifies store, d
      ensures store.Sound()
      ensures WroteTo(offset, buf) && writeSize == |buf|
    {
      ghost var start := store.blocks;
      OthersUsedIs(fs, start, owner, id);
      ghost var owner';
      writeSize, owner' := Update(fs, offset, buf, d, store, start, owner, id);
      Store(d, start, owner');
      OthersUsedIs(fs, store.blocks, owner', id);
    }

    /** Writes the buffer at any offset: the file grows as needed, a gap is filled with zeros. */
    method WriteAt(offset: nat, buf: seq<u8>) returns (writeSize: nat)
      requires Valid() && Fits(offset, |buf|)
      requires store.Sound()
      modifies store
      ensures store.Sound() && store.synced
      ensures WroteTo(offset, buf) && writeSize == |buf|
    {
      var d, owner := Load();
      writeSize := Modify(offset, buf, d, owner);
      store.SyncAll();
    }

    /** Gives back the whole tree of the file, whose emptied record is still to be stored. */
    method GiveBack(v: seq<u32>, d: DiskInode, ghost owner: Owners)
      requires fs.Geometry(|store.blocks|) && id < fs.InodeCount()
      requires Open(fs, store.blocks, store.blocks, owner, id, fs.Inodes(store.blocks)[id])
      requires v == fs.FileTree(store.blocks, id) && fs.HeldBelow(store.held)
      requires d.size == 0 && d.kind == fs.Inodes(store.blocks)[id].kind
      requires store.Sound()
      modifies store
      ensures store.Sound() && store.held == old(store.held)
      ensures Open(fs, old(store.blocks), store.blocks, Disowned(owner, id), id, d.Value())
      ensures Content(d.Value(), store.blocks) == [] && |Disowned(owner, id).Keys| == |owner.Keys| - |v|
    {
      ghost var start := store.blocks;
      ClearStart(fs, start, owner, id);
      DeallocBlocks(fs, v, store, Disowned(owner, id).Keys);
      ClearedOpen(fs, start, store.blocks, owner, id, d.Value());
    }

    /** Empties the file and gives all its blocks back. */
    method Clear()
      requires Valid()
      requires store.Sound()
      modifies store
      ensures store.Sound() && store.synced
      ensures Valid() && OnlyFile(fs, old(store.blocks), store.blocks, id)
      ensures Contents() == [] && fs.Geometry(|old(store.blocks)|)
      ensures fs.Used(store.blocks) == old(OthersUsed(fs, store.blocks, id))
      ensures |fs.Used(store.blocks)| == |old(fs.Used(store.blocks))| - TotalBlocks(|old(Contents())|)
    {
      ghost var start := store.blocks;
      var d, owner := Load();
      var dataBlocksDealloc := d.ClearSize(store);
      GiveBack(dataBlocksDealloc, d, owner);
      OthersUsedIs(fs, start, owner, id);
      Store(d, start, Disowned(owner, id));
      store.SyncAll();
    }
  }

  lemma LoadedOwner(fs: EasyFs, blocks: seq<Block>, owner: Owners)
    requires fs.Geometry(|blocks|) && fs.OwnedBy(blocks, owner)
    ensures fs.Used(blocks) == owner.Keys
  {
    fs.Laws(blocks, fs.Inodes(blocks), owner);
    fs.UsedIs(blocks, owner.Keys);
  }

  lemma SizeFits(size: nat)
    requires DataBlocks(size) <= MAX_BLOCKS
    ensures size < 0x1_0000_0000
  {
  }

  /** What the file gives up is its own. */
  lemma ClearStart(fs: EasyFs, start: seq<Block>, owner: Owners, i: nat)
    requires fs.Geometry(|start|) && i < fs.InodeCount() && Open(fs, start, start, owner, i, fs.Inodes(start)[i])
    ensures var t := fs.FileTree(start, i);
            var kept := Disowned(owner, i).Keys;
            && NoDup(t) && kept !! ToSet(t) && kept + ToSet(t) == owner.Keys && fs.BitsMatch(start, kept + ToSet(t))
            && |kept| == |owner.Keys| - |t|
  {
    UpdateSame(fs.Inodes(start), i);
    var inodes, t, kept := fs.Inodes(start), fs.FileTree(start, i), Disowned(owner, i).Keys;
    fs.Laws(start, inodes, owner);
    TreeBlocks(inodes, start, owner, fs.dataAreaStart, i);
    var trees := AllTrees(inodes, start);
    forall b | b in owner.Keys
      ensures b in kept || b in ToSet(t)
    {
      assert b in trees[owner[b]];
    }
    SplitSize(owner.Keys, kept, t);
  }

  lemma SplitSize(all: set<u32>, kept: set<u32>, t: seq<u32>)
    requires NoDup(t) && kept !! ToSet(t) && forall b :: b in all <==> b in kept || b in ToSet(t)
    ensures kept + ToSet(t) == all && |kept| == |all| - |t|
  {
    ToSetSize(t);
    assert kept + ToSet(t) == all;
  }

  lemma ClearedOpen(fs: EasyFs, start: seq<Block>, after: seq<Block>, owner: Owners, i: nat, d': Inode)
    requires fs.Geometry(|start|) && i < fs.InodeCount() && Open(fs, start, start, owner, i, fs.Inodes(start)[i])
    requires d'.size == 0 && d'.kind == fs.Inodes(start)[i].kind
    requires var t := fs.FileTree(start, i); Freeing(fs, start, after, Disowned(owner, i).Keys, t, |t|)
    ensures Open(fs, start, after, Disowned(owner, i), i, d') && Content(d', after) == []
  {
    UpdateSame(fs.Inodes(start), i);
    ClearedState(fs, start, after, fs.Inodes(start), owner, i, d');
    GrewOthers(fs, start, start, after, fs.Inodes(start), i);
  }

  lemma CopiedPart(before: seq<u8>, after: seq<u8>, d: Inode, blocks: seq<Block>, offset: nat, n: nat)
    requires Copied(before, after, 0, d, blocks, offset, n) && offset < d.size
             && 0 < n == Min(|before|, d.size - offset)
    ensures after == Part(Content(d, blocks), offset, |before|) + before[n..]
    ensures |Part(Content(d, blocks), offset, |before|)| == n
  {
    SliceTake(DataBytes(d, blocks), d.size, offset, offset + n);
  }

  /** Clearing undoes writing: both bitmaps' worth of blocks and all files are as before the file grew. */
  method WriteThenClear(file: VfsInode, offset: nat, buf: seq<u8>)
    requires file.Valid() && file.Contents() == [] && file.Fits(offset, |buf|)
    requires file.store.Sound()
    modifies file.store
    ensures file.store.Sound()
    ensures file.Valid() && file.Contents() == []
    ensures file.fs.Used(file.store.blocks) == old(file.fs.Used(file.store.blocks))
    ensures OnlyFile(file.fs, old(file.store.blocks), file.store.blocks, file.id)
  {
    EmptyTree(file.fs, file.store.blocks, file.id);
    var n := file.WriteAt(offset, buf);
    file.Clear();
  }

  lemma EmptyTree(fs: EasyFs, blocks: seq<Block>, i: nat)
    requires fs.Geometry(|blocks|) && i < fs.InodeCount() && fs.File(blocks, i) == []
    ensures OthersUsed(fs, blocks, i) == fs.Used(blocks)
  {
    assert |fs.File(blocks, i)| == fs.Inodes(blocks)[i].size;
    assert fs.FileTree(blocks, i) == [];
  }
}
