/** Whole runs: the file system refines a list of named byte sequences.

    A run formats a device, carries out any admissible sequence of creations, writes and clears, all by name,
    and then opens the device again. What lookups and reads deliver is what the list of files says.
  */
module FileSystemRuns {
  import opened BlockViews
  import opened InodeTree
  import opened BlockStorage
  import opened BlockCaches
  import opened Options
  import opened Bitmaps
  import opened FileTrees
  import opened EasyFileSystems
  import opened Format
  import opened Vfs
  import opened Directories

  datatype Op =
    | Create(name: seq<u8>)
    | Write(name: seq<u8>, offset: nat, data: seq<u8>)
    | Clear(name: seq<u8>)

  /** The files in the order of their creation; file k is inode k + 1. */
  datatype Model = Model(names: seq<seq<u8>>, files: seq<seq<u8>>)

  /** The first file with that name. */
  function IndexOf(names: seq<seq<u8>>, name: seq<u8>): (r: Option<nat>)
    ensures r.Some? ==> r.value < |names| && names[r.value] == name
  {
    if names == [] then None
    else if names[0] == name then Some(0)
    else
      var r := IndexOf(names[1..], name);
      if r.None? then None else Some(r.value + 1)
  }

  function Apply(m: Model, op: Op): Model
    requires |m.names| == |m.files|
  {
    match op
    case Create(name) => Model(m.names + [NameKept(name)], m.files + [[]])
    case Write(name, offset, data) =>
      var k := IndexOf(m.names, name);
      if k.None? then m else m.(files := m.files[k.value := Written(m.files[k.value], offset, data)])
    case Clear(name) =>
      var k := IndexOf(m.names, name);
      if k.None? then m else m.(files := m.files[k.value := []])
  }

  function SumBlocks(files: seq<seq<u8>>): nat {
    if files == [] then 0 else TotalBlocks(|files[0]|) + SumBlocks(files[1..])
  }

  /** Data-area blocks taken by the directory and all files. */
  function Space(m: Model): nat { TotalBlocks(DIRENT_SZ * |m.names|) + SumBlocks(m.files) }

  /** Everything a caller has to check before an operation. */
  predicate Allowed(m: Model, op: Op, inodes: nat, capacity: int)
    requires |m.names| == |m.files|
  {
    && Space(Apply(m, op)) <= capacity
    && match op
       case Create(name) => ValidName(name) && |m.names| + 1 < inodes
         && DataBlocks(DIRENT_SZ * (|m.names| + 1)) <= MAX_BLOCKS
       case Write(name, offset, data) => data != [] && DataBlocks(offset + |data|) <= MAX_BLOCKS
       case Clear(name) => true
  }

  predicate AllowedRun(m: Model, ops: seq<Op>, inodes: nat, capacity: int)
    requires |m.names| == |m.files|
    decreases |ops|
  {
    ops == [] || (Allowed(m, ops[0], inodes, capacity) && AllowedRun(Apply(m, ops[0]), ops[1..], inodes, capacity))
  }

  function Final(m: Model, ops: seq<Op>): (r: Model)
    requires |m.names| == |m.files|
    ensures |r.names| == |r.files|
    decreases |ops|
  {
    if ops == [] then m else Final(Apply(m, ops[0]), ops[1..])
  }

  // ---- the abstraction ----

  function EntriesFor(names: seq<seq<u8>>, first: nat): (es: seq<Entry>)
    requires first + |names| <= 0x1_0000_0000
    ensures |es| == |names|
  {
    if names == [] then [] else [Entry(names[0], first)] + EntriesFor(names[1..], first + 1)
  }

  lemma {:induction false} EntriesForAppend(names: seq<seq<u8>>, name: seq<u8>, first: nat)
    requires first + |names| + 1 <= 0x1_0000_0000
    ensures EntriesFor(names + [name], first) == EntriesFor(names, first) + [Entry(name, first + |names|)]
  {
    if names == [] {
      assert names + [name] == [name];
    } else {
      assert (names + [name])[1..] == names[1..] + [name];
      EntriesForAppend(names[1..], name, first + 1);
    }
  }

  lemma {:induction false} LookupIsIndexOf(names: seq<seq<u8>>, name: seq<u8>, first: nat)
    requires first + |names| <= 0x1_0000_0000
    ensures var k := IndexOf(names, name);
            Lookup(EntriesFor(names, first), name) == if k.None? then None else Some(first + k.value)
  {
    if names != [] {
      var es := EntriesFor(names, first);
      assert es[0] == Entry(names[0], first) && es[1..] == EntriesFor(names[1..], first + 1);
      if names[0] != name {
        LookupIsIndexOf(names[1..], name, first + 1);
        assert Lookup(es, name) == Lookup(es[1..], name);
      }
    }
  }

  lemma {:induction false} NamesOfEntries(names: seq<seq<u8>>, first: nat)
    requires first + |names| <= 0x1_0000_0000
    ensures Names(EntriesFor(names, first)) == names
  {
    if names != [] {
      NamesOfEntries(names[1..], first + 1);
      assert Names(EntriesFor(names, first)) == [names[0]] + Names(EntriesFor(names[1..], first + 1));
    }
  }

  /** File k is inode k + 1. */
  ghost predicate FilesAre(fs: EasyFs, blocks: seq<Block>, files: seq<seq<u8>>)
    requires fs.Geometry(|blocks|) && |files| < fs.InodeCount()
  {
    forall k {:trigger files[k]} :: 0 <= k < |files| ==> fs.File(blocks, k + 1) == files[k]
  }

  ghost predicate InodesTaken(fs: EasyFs, blocks: seq<Block>, n: nat)
    requires fs.Geometry(|blocks|)
  {
    forall j :: 0 <= j < fs.InodeCount() ==> (fs.inodeBitmap.IsSet(blocks, j) <==> j <= n)
  }

  ghost predicate DirectoryIs(fs: EasyFs, blocks: seq<Block>, names: seq<seq<u8>>)
    requires fs.Geometry(|blocks|) && |names| < fs.InodeCount()
  {
    DirOk(fs, blocks, 0) && EntriesOf(fs, blocks, 0) == EntriesFor(names, 1)
  }

  /** The disk holds exactly the files of the model, and uses exactly the space they need. */
  ghost predicate Represents(fs: EasyFs, blocks: seq<Block>, m: Model) {
    && fs.Geometry(|blocks|) && fs.Consistent(blocks)
    && |m.names| == |m.files| < fs.InodeCount()
    && DirectoryIs(fs, blocks, m.names) && InodesTaken(fs, blocks, |m.names|) && FilesAre(fs, blocks, m.files)
    && |fs.Used(blocks)| == Space(m)
  }

  lemma {:induction false} SumBlocksPut(files: seq<seq<u8>>, k: nat, s: seq<u8>)
    requires k < |files|
    ensures SumBlocks(files[k := s]) == SumBlocks(files) - TotalBlocks(|files[k]|) + TotalBlocks(|s|)
  {
    if k == 0 {
      assert files[0 := s][1..] == files[1..];
    } else {
      assert files[k := s][1..] == files[1..][k - 1 := s];
      SumBlocksPut(files[1..], k - 1, s);
    }
  }

  lemma {:induction false} SumBlocksAppend(files: seq<seq<u8>>)
    ensures SumBlocks(files + [[]]) == SumBlocks(files)
  {
    if files == [] {
      assert files + [[]] == [[]];
      assert TotalBlocks(0) == 0;
    } else {
      assert (files + [[]])[1..] == files[1..] + [[]];
      SumBlocksAppend(files[1..]);
    }
  }

  /** An operation on another file leaves the directory alone. */
  lemma DirKept(fs: EasyFs, before: seq<Block>, after: seq<Block>, dir: nat, i: nat)
    requires fs.Geometry(|before|) && fs.Geometry(|after|) && dir < fs.InodeCount() && i != dir
    requires DirOk(fs, before, dir) && OnlyFile(fs, before, after, i)
    ensures DirOk(fs, after, dir) && EntriesOf(fs, after, dir) == EntriesOf(fs, before, dir)
  {
    assert fs.File(after, dir) == fs.File(before, dir);
    LeadsKept(fs, before, after, EntriesOf(fs, before, dir));
  }

  lemma FilesReplaced(fs: EasyFs, before: seq<Block>, after: seq<Block>, files: seq<seq<u8>>, k: nat, s: seq<u8>)
    requires fs.Geometry(|before|) && fs.Geometry(|after|) && k < |files| < fs.InodeCount()
    requires FilesAre(fs, before, files) && OnlyFile(fs, before, after, k + 1) && fs.File(after, k + 1) == s
    ensures FilesAre(fs, after, files[k := s])
  {
    forall j {:trigger files[k := s][j]} | 0 <= j < |files|
      ensures fs.File(after, j + 1) == files[k := s][j]
    {
      if j != k { assert fs.File(after, j + 1) == fs.File(before, j + 1) == files[j]; }
    }
  }

  /** Replacing the content of one file on disk replaces it in the model. */
  lemma FileReplaced(fs: EasyFs, before: seq<Block>, after: seq<Block>, m: Model, k: nat, s: seq<u8>)
    requires Represents(fs, before, m) && k < |m.files|
    requires fs.Geometry(|after|) && fs.Consistent(after) && OnlyFile(fs, before, after, k + 1)
             && fs.File(after, k + 1) == s
    requires |fs.Used(after)| == |fs.Used(before)| - TotalBlocks(|m.files[k]|) + TotalBlocks(|s|)
    ensures Represents(fs, after, m.(files := m.files[k := s]))
  {
    DirKept(fs, before, after, 0, k + 1);
    SumBlocksPut(m.files, k, s);
    FilesReplaced(fs, before, after, m.files, k, s);
    assert InodesTaken(fs, after, |m.names|);
  }

  lemma FormattedRepresents(fs: EasyFs, blocks: seq<Block>)
    requires Formatted(fs, blocks)
    ensures Represents(fs, blocks, Model([], []))
  {
    assert fs.File(blocks, 0) == [];
    assert TotalBlocks(0) == 0;
  }

  /** The inode taken is the next one. */
  lemma NextInode(fs: EasyFs, blocks: seq<Block>, n: nat, id: nat)
    requires fs.Geometry(|blocks|) && InodesTaken(fs, blocks, n) && n + 1 < fs.InodeCount() && id < fs.InodeCount()
    requires !fs.inodeBitmap.IsSet(blocks, id) && fs.inodeBitmap.SetBelow(blocks, id)
    ensures id == n + 1
  {
    assert !fs.inodeBitmap.IsSet(blocks, n + 1);
  }

  lemma FilesAppended(fs: EasyFs, before: seq<Block>, after: seq<Block>, files: seq<seq<u8>>, name: seq<u8>)
    requires fs.Geometry(|before|) && fs.Geometry(|after|) && |files| + 1 < fs.InodeCount()
    requires FilesAre(fs, before, files) && Created(fs, before, after, 0, name, |files| + 1)
    ensures FilesAre(fs, after, files + [[]])
  {
    forall k {:trigger (files + [[]])[k]} | 0 <= k < |files + [[]]|
      ensures fs.File(after, k + 1) == (files + [[]])[k]
    {
      if k < |files| { assert fs.File(after, k + 1) == fs.File(before, k + 1) == files[k]; }
    }
  }

  lemma DirectorySize(fs: EasyFs, blocks: seq<Block>, m: Model)
    requires Represents(fs, blocks, m)
    ensures |fs.File(blocks, 0)| == DIRENT_SZ * |m.names|
    ensures fs.Inodes(blocks)[0].size == DIRENT_SZ * |m.names|
  {
    WholeEntries(fs.File(blocks, 0));
  }

  lemma SpaceCreated(m: Model, name: seq<u8>)
    requires |m.names| == |m.files|
    ensures Space(Apply(m, Create(name)))
            == Space(m) - TotalBlocks(DIRENT_SZ * |m.names|) + TotalBlocks(DIRENT_SZ * (|m.names| + 1))
  {
    SumBlocksAppend(m.files);
  }

  /** What one more entry in the directory, of that many bytes so far, costs. */
  lemma SpaceForEntry(d: Inode, size: nat, m: Model, name: seq<u8>)
    requires |m.names| == |m.files| && d.size == size == DIRENT_SZ * |m.names|
    ensures Space(m) + Needed(d, size + DIRENT_SZ) == Space(Apply(m, Create(name)))
    ensures size / BLOCK_SZ < DataBlocks(Max(size, size + DIRENT_SZ))
    ensures DataBlocks(size + DIRENT_SZ) == DataBlocks(DIRENT_SZ * (|m.names| + 1))
  {
    SpaceCreated(m, name);
  }

  lemma EntrySpace(fs: EasyFs, before: seq<Block>, after: seq<Block>, m: Model, name: seq<u8>)
    requires Represents(fs, before, m) && fs.Geometry(|after|) && EntryPaid(fs, before, after, 0)
    ensures |fs.Used(after)| == Space(Apply(m, Create(name)))
  {
    DirectorySize(fs, before, m);
    SpaceForEntry(fs.Inodes(before)[0], |fs.File(before, 0)|, m, name);
  }

  lemma FileCreated(fs: EasyFs, before: seq<Block>, after: seq<Block>, m: Model, name: seq<u8>, id: nat)
    requires Represents(fs, before, m) && |m.names| + 1 < fs.InodeCount()
    requires fs.Geometry(|after|) && fs.Consistent(after) && DirOk(fs, after, 0)
             && Created(fs, before, after, 0, name, id) && ValidName(name)
    requires |fs.Used(after)| == Space(Apply(m, Create(name)))
    ensures Represents(fs, after, Apply(m, Create(name)))
  {
    NextInode(fs, before, |m.names|, id);
    EntriesForAppend(m.names, NameKept(name), 1);
    FilesAppended(fs, before, after, m.files, name);
    assert InodesTaken(fs, after, |m.names| + 1);
  }

  // ---- running ----

  /** A handle to the root directory. */
  method Root(fs: EasyFs, store: BlockStore, ghost m: Model) returns (root: VfsInode)
    requires Represents(fs, store.blocks, m) && store.held == []
    ensures root.fs == fs && root.store == store && root.id == 0 && IsDirectory(root)
    ensures DirEntries(root) == EntriesFor(m.names, 1)
  {
    root := new VfsInode(0, fs, store);
    assert fs.inodeBitmap.IsSet(store.blocks, 0);
  }

  /** Looks a file up by name. */
  method OpenFile(fs: EasyFs, store: BlockStore, name: seq<u8>, ghost m: Model) returns (found: Option<VfsInode>)
    requires Represents(fs, store.blocks, m) && store.held == []
    requires store.Sound()
    modifies store`held, store`trace
    ensures store.Sound()
    ensures store.held == []
    ensures found.Some? <==> IndexOf(m.names, name).Some?
    ensures found.Some? ==>
              var k := IndexOf(m.names, name).value;
              && found.value.fs == fs && found.value.store == store && found.value.id == k + 1 && found.value.Valid()
              && found.value.Contents() == m.files[k]
  {
    var root := Root(fs, store, m);
    LookupIsIndexOf(m.names, name, 1);
    found := Find(root, name);
    if found.Some? {
      ghost var k := IndexOf(m.names, name).value;
      assert fs.File(store.blocks, k + 1) == m.files[k];
    }
  }

  lemma RoomToCreate(root: VfsInode, name: seq<u8>, m: Model)
    requires Represents(root.fs, root.store.blocks, m) && root.id == 0
    requires Allowed(m, Create(name), root.fs.InodeCount(), root.fs.Capacity(root.store.blocks))
    ensures exists j :: 0 <= j < root.fs.InodeCount() && !root.fs.inodeBitmap.IsSet(root.store.blocks, j)
    ensures root.Fits(|root.Contents()|, DIRENT_SZ)
  {
    DirectorySize(root.fs, root.store.blocks, m);
    SpaceForEntry(root.fs.Inodes(root.store.blocks)[0], |root.Contents()|, m, name);
    assert !root.fs.inodeBitmap.IsSet(root.store.blocks, |m.names| + 1);
  }

  method CreateIn(root: VfsInode, name: seq<u8>, ghost m: Model)
    requires IsDirectory(root) && root.id == 0 && Represents(root.fs, root.store.blocks, m)
    requires ValidName(name) && |m.names| + 1 < root.fs.InodeCount() && root.Fits(|root.Contents()|, DIRENT_SZ)
    requires exists j :: 0 <= j < root.fs.InodeCount() && !root.fs.inodeBitmap.IsSet(root.store.blocks, j)
    requires root.store.Sound()
    modifies root.store
    ensures root.store.Sound() && (old(root.store.synced) ==> root.store.synced)
    ensures IsDirectory(root) && |root.store.blocks| == |old(root.store.blocks)|
    ensures Represents(root.fs, root.store.blocks, Apply(m, Create(name)))
  {
    ghost var before := root.store.blocks;
    var inode := CreateFile(root, name);
    EntryCreated(root.fs, before, root.store.blocks, root.id, m, name, inode.id);
  }

  lemma EntryCreated(fs: EasyFs, before: seq<Block>, after: seq<Block>, dir: nat, m: Model, name: seq<u8>, id: nat)
    requires Represents(fs, before, m) && |m.names| + 1 < fs.InodeCount() && dir == 0
    requires fs.Geometry(|after|) && fs.Consistent(after) && DirOk(fs, after, dir)
             && Created(fs, before, after, dir, name, id) && ValidName(name)
    requires EntryPaid(fs, before, after, dir)
    ensures Represents(fs, after, Apply(m, Create(name)))
  {
    EntrySpace(fs, before, after, m, name);
    FileCreated(fs, before, after, m, name, id);
  }

  method DoCreate(fs: EasyFs, store: BlockStore, name: seq<u8>, ghost m: Model)
    requires Represents(fs, store.blocks, m) && store.held == []
    requires Allowed(m, Create(name), fs.InodeCount(), fs.Capacity(store.blocks))
    requires store.Sound()
    modifies store
    ensures store.Sound() && (old(store.synced) ==> store.synced)
    ensures store.held == [] && |store.blocks| == |old(store.blocks)|
    ensures Represents(fs, store.blocks, Apply(m, Create(name)))
  {
    var root := Root(fs, store, m);
    RoomToCreate(root, name, m);
    CreateIn(root, name, m);
  }

  method DoWrite(fs: EasyFs, store: BlockStore, name: seq<u8>, offset: nat, data: seq<u8>, ghost m: Model)
    requires Represents(fs, store.blocks, m) && store.held == []
    requires Allowed(m, Write(name, offset, data), fs.InodeCount(), fs.Capacity(store.blocks))
    requires store.Sound()
    modifies store
    ensures store.Sound() && (old(store.synced) ==> store.synced)
    ensures store.held == [] && |store.blocks| == |old(store.blocks)|
    ensures Represents(fs, store.blocks, Apply(m, Write(name, offset, data)))
  {
    ghost var before := store.blocks;
    var found := OpenFile(fs, store, name, m);
    if found.Some? {
      ghost var k := IndexOf(m.names, name).value;
      WriteFits(m, k, offset, data, fs.Inodes(before)[k + 1]);
      var n := found.value.WriteAt(offset, data);
      FileReplaced(fs, before, store.blocks, m, k, Written(m.files[k], offset, data));
    }
  }

  lemma WriteFits(m: Model, k: nat, offset: nat, data: seq<u8>, d: Inode)
    requires |m.names| == |m.files| && k < |m.files| && data != [] && d.size == |m.files[k]|
    ensures offset / BLOCK_SZ < DataBlocks(Max(d.size, offset + |data|))
    ensures Needed(d, offset + |data|) == TotalBlocks(|Written(m.files[k], offset, data)|) - TotalBlocks(|m.files[k]|)
    ensures Space(m.(files := m.files[k := Written(m.files[k], offset, data)])) == Space(m) + Needed(d, offset + |data|)
  {
    SumBlocksPut(m.files, k, Written(m.files[k], offset, data));
  }

  lemma FileEmptied(fs: EasyFs, before: seq<Block>, after: seq<Block>, m: Model, k: nat)
    requires Represents(fs, before, m) && k < |m.files|
    requires fs.Geometry(|after|) && fs.Consistent(after) && OnlyFile(fs, before, after, k + 1)
             && fs.File(after, k + 1) == []
    requires |fs.Used(after)| == |fs.Used(before)| - TotalBlocks(|m.files[k]|)
    ensures Represents(fs, after, m.(files := m.files[k := []]))
  {
    assert TotalBlocks(0) == 0;
    FileReplaced(fs, before, after, m, k, []);
  }

  method DoClear(fs: EasyFs, store: BlockStore, name: seq<u8>, ghost m: Model)
    requires Represents(fs, store.blocks, m) && store.held == []
    requires store.Sound()
    modifies store
    ensures store.Sound() && (old(store.synced) ==> store.synced)
    ensures store.held == [] && |store.blocks| == |old(store.blocks)|
    ensures Represents(fs, store.blocks, Apply(m, Clear(name)))
  {
    ghost var before := store.blocks;
    var found := OpenFile(fs, store, name, m);
    if found.Some? {
      ghost var k := IndexOf(m.names, name).value;
      found.value.Clear();
      FileEmptied(fs, before, store.blocks, m, k);
    }
  }

  /** Carries out a sequence of operations. */
  method Run(fs: EasyFs, store: BlockStore, ops: seq<Op>, ghost m: Model)
    requires Represents(fs, store.blocks, m) && store.held == []
    requires AllowedRun(m, ops, fs.InodeCount(), fs.Capacity(store.blocks))
    requires store.Sound()
    modifies store
    ensures store.Sound() && (old(store.synced) ==> store.synced)
    ensures store.held == [] && |store.blocks| == |old(store.blocks)|
    ensures Represents(fs, store.blocks, Final(m, ops))
    decreases |ops|
  {
    if ops != [] {
      DoOp(fs, store, ops[0], m);
      Run(fs, store, ops[1..], Apply(m, ops[0]));
    }
  }

  method DoOp(fs: EasyFs, store: BlockStore, op: Op, ghost m: Model)
    requires Represents(fs, store.blocks, m) && store.held == []
             && Allowed(m, op, fs.InodeCount(), fs.Capacity(store.blocks))
    requires store.Sound()
    modifies store
    ensures store.Sound() && (old(store.synced) ==> store.synced)
    ensures store.held == [] && |store.blocks| == |old(store.blocks)|
    ensures Represents(fs, store.blocks, Apply(m, op))
  {
    match op {
      case Create(name) => DoCreate(fs, store, name, m);
      case Write(name, offset, data) => DoWrite(fs, store, name, offset, data, m);
      case Clear(name) => DoClear(fs, store, name, m);
    }
  }

  /** A block is marked as taken exactly when it belongs to some file, and the files need all the blocks taken. */
  ghost predicate NothingLeaked(fs: EasyFs, blocks: seq<Block>, m: Model) {
    && fs.Geometry(|blocks|) && |fs.Used(blocks)| == Space(m)
    && forall b: nat {:trigger fs.DataBit(blocks, b)} ::
         fs.dataAreaStart <= b < fs.dataAreaStart + fs.dataBitmap.Maximum() ==>
           (fs.DataBit(blocks, b) <==> fs.InSomeTree(blocks, b))
  }

  lemma RepresentedCleanly(fs: EasyFs, blocks: seq<Block>, m: Model)
    requires Represents(fs, blocks, m)
    ensures NothingLeaked(fs, blocks, m)
  {
    forall b: nat | fs.dataAreaStart <= b < fs.dataAreaStart + fs.dataBitmap.Maximum()
      ensures fs.DataBit(blocks, b) <==> fs.InSomeTree(blocks, b)
    {
      fs.NoLeak(blocks, b);
    }
  }

  /** Formats a device, whatever is on it, runs `ops` through the cache, switches the machine off, opens the device
      again with a new and empty cache, lists the names, and reads one file in full: the names and the bytes are
      those of the model, no block has leaked on the device, and no operation panics on the way. */
  method Session(blocks: seq<Block>, totalBlocks: nat, inodeBitmapBlocks: nat, ops: seq<Op>, name: seq<u8>)
    returns (device: BlockDevice, names: seq<seq<u8>>, contents: Option<seq<u8>>)
    requires |blocks| == totalBlocks && Admissible(totalBlocks, inodeBitmapBlocks)
    requires var fs := Layout(totalBlocks, inodeBitmapBlocks);
             AllowedRun(Model([], []), ops, fs.InodeCount(), totalBlocks - fs.dataAreaStart)
    ensures var m := Final(Model([], []), ops);
            && names == m.names && NothingLeaked(Layout(totalBlocks, inodeBitmapBlocks), device.blocks, m)
            && contents == (if IndexOf(m.names, name).None? then None else Some(m.files[IndexOf(m.names, name).value]))
  {
    ghost var m := Final(Model([], []), ops);
    var cached, answers;
    var store := new BlockStore(blocks);
    FormatAndRun(store, totalBlocks, inodeBitmapBlocks, ops);
    device, cached, answers := Repeat(blocks, store.trace, store.Seen());
    names, contents, store := Reopen(device.blocks, Layout(totalBlocks, inodeBitmapBlocks), name, m);
    device, cached, answers := Repeat(device.blocks, store.trace, store.Seen());
    RepresentedCleanly(Layout(totalBlocks, inodeBitmapBlocks), device.blocks, m);
  }

  /** Opens what is on a device, lists the names, and reads a file. */
  method Reopen(blocks: seq<Block>, ghost made: EasyFs, name: seq<u8>, ghost m: Model)
    returns (names: seq<seq<u8>>, contents: Option<seq<u8>>, store: BlockStore)
    requires Represents(made, blocks, m)
    ensures store.Sound() && store.start == blocks && store.Seen() == View(blocks, [], true) && names == m.names
    ensures contents == (if IndexOf(m.names, name).None? then None else Some(m.files[IndexOf(m.names, name).value]))
  {
    store := new BlockStore(blocks);
    RepresentsSuper(made, blocks, m);
    var fs := Format.Open(store);
    var root := Root(fs, store, m);
    names := Readdir(root);
    NamesOfEntries(m.names, 1);
    contents := ReadFile(fs, store, name, m);
  }

  method FormatAndRun(store: BlockStore, totalBlocks: nat, inodeBitmapBlocks: nat, ops: seq<Op>)
    requires |store.blocks| == totalBlocks && Admissible(totalBlocks, inodeBitmapBlocks) && store.held == []
    requires var fs := Layout(totalBlocks, inodeBitmapBlocks);
             AllowedRun(Model([], []), ops, fs.InodeCount(), totalBlocks - fs.dataAreaStart)
    requires store.Sound()
    modifies store
    ensures store.Sound() && store.synced
    ensures store.held == [] && |store.blocks| == totalBlocks
    ensures Represents(Layout(totalBlocks, inodeBitmapBlocks), store.blocks, Final(Model([], []), ops))
  {
    var fs := FormatDevice(store, totalBlocks, inodeBitmapBlocks);
    Run(fs, store, ops, Model([], []));
  }

  method FormatDevice(store: BlockStore, totalBlocks: nat, inodeBitmapBlocks: nat) returns (fs: EasyFs)
    requires |store.blocks| == totalBlocks && Admissible(totalBlocks, inodeBitmapBlocks) && store.held == []
    requires store.Sound()
    modifies store
    ensures store.Sound() && store.synced && store.held == [] && |store.blocks| == totalBlocks
    ensures fs == Layout(totalBlocks, inodeBitmapBlocks) && Represents(fs, store.blocks, Model([], []))
  {
    fs := Format.Create(store, totalBlocks, inodeBitmapBlocks);
    FormattedRepresents(fs, store.blocks);
  }

  /** All bytes of the file with that name. */
  method ReadFile(fs: EasyFs, store: BlockStore, name: seq<u8>, ghost m: Model) returns (contents: Option<seq<u8>>)
    requires Represents(fs, store.blocks, m) && store.held == []
    requires store.Sound()
    modifies store`held, store`trace
    ensures store.Sound()
    ensures store.held == []
    ensures contents == (if IndexOf(m.names, name).None? then None else Some(m.files[IndexOf(m.names, name).value]))
  {
    var found := OpenFile(fs, store, name, m);
    contents := None;
    if found.Some? {
      var v := ReadAll(found.value);
      contents := Some(v);
    }
  }

  lemma RepresentsSuper(fs: EasyFs, blocks: seq<Block>, m: Model)
    requires Represents(fs, blocks, m)
    ensures fs.SuperOk(blocks)
  {
    var owner: Owners :| fs.OwnedBy(blocks, owner);
  }

  /** Reads the file to its end, 512 bytes at a time. */
  method ReadAll(file: VfsInode) returns (v: seq<u8>)
    requires file.Valid()
    requires file.store.Sound()
    modifies file.store`held, file.store`trace
    ensures file.store.Sound()
    ensures file.Valid() && v == file.Contents()
  {
    ghost var s := file.Contents();
    var offset := 0;
    var buffer := new u8[512];
    v := [];
    while true
      invariant file.Valid() && file.store.Sound() && file.Contents() == s
      invariant 0 <= offset <= |s| && v == s[..offset]
      decreases |s| - offset
    {
      var len := file.ReadAt(offset, buffer);
      if len == 0 { break; }
      NextPart(s, offset, buffer[..], len);
      offset := offset + len;
      v := v + buffer[..len];
    }
  }

  lemma NextPart(s: seq<u8>, offset: nat, buffer: seq<u8>, len: nat)
    requires offset <= |s| && 0 < len == |Part(s, offset, |buffer|)| && len <= |buffer|
    requires buffer[..len] == Part(s, offset, |buffer|)
    ensures offset + len <= |s| && s[..offset] + buffer[..len] == s[..offset + len]
  {
  }
}
