/** Directories: a file of 32-byte entries that behaves as an append-only list of names. */
module Directories {
  import opened BlockViews
  import opened InodeTree
  import opened BlockStorage
  import opened Options
  import opened Bitmaps
  import opened DiskInodes
  import opened FileTrees
  import opened EasyFileSystems
  import opened Format
  import opened Vfs

  const NAME_LENGTH_LIMIT: nat := 27
  const DIRENT_SZ: nat := 32

  datatype Entry = Entry(name: seq<u8>, inode: u32)

  // ---- one entry ----

  /** The position of the first NUL from position k on. */
  function FirstNul(s: seq<u8>, k: nat): (r: nat)
    requires k <= |s|
    ensures k <= r <= |s| && (r < |s| ==> s[r] == 0)
    decreases |s| - k
  {
    if k == |s| || s[k] == 0 then k else FirstNul(s, k + 1)
  }

  /** What the field of a name keeps of it: the bytes before the first NUL. */
  function NameKept(name: seq<u8>): seq<u8> { name[..FirstNul(name, 0)] }

  /** Names that can be stored: `new` copies them into the field, which fails for longer ones. */
  predicate Storable(name: seq<u8>) { |name| <= NAME_LENGTH_LIMIT + 1 }

  /** Names that leave a NUL in the field, which reading it needs. */
  predicate ValidName(name: seq<u8>) { Storable(name) && |NameKept(name)| <= NAME_LENGTH_LIMIT }

  function Encode(name: seq<u8>, inode: u32): (e: seq<u8>)
    requires Storable(name)
    ensures |e| == DIRENT_SZ
  {
    name + Zeros(NAME_LENGTH_LIMIT + 1 - |name|) + LE4(inode)
  }

  /** The name field ends in a NUL. */
  predicate Terminated(e: seq<u8>)
    requires |e| == DIRENT_SZ
  {
    FirstNul(e, 0) <= NAME_LENGTH_LIMIT
  }

  function Decode(e: seq<u8>): Entry
    requires |e| == DIRENT_SZ
  {
    Entry(e[..FirstNul(e, 0)], Word(e[28], e[29], e[30], e[31]))
  }

  lemma {:induction false} FirstNulIs(s: seq<u8>, k: nat, n: nat)
    requires k <= n < |s| && s[n] == 0 && forall j :: k <= j < n ==> s[j] != 0
    ensures FirstNul(s, k) == n
    decreases n - k
  {
    if k < n { FirstNulIs(s, k + 1, n); }
  }

  lemma {:induction false} NoNulBefore(s: seq<u8>, k: nat)
    requires k <= |s|
    ensures forall j :: k <= j < FirstNul(s, k) ==> s[j] != 0
    decreases |s| - k
  {
    if k < |s| && s[k] != 0 { NoNulBefore(s, k + 1); }
  }

  /** Reading an entry back gives its inode and the name up to its first NUL, so the whole name if it has none; but
      for a name that fills the field there is no end to be found. */
  lemma DecodeEncode(name: seq<u8>, inode: u32)
    requires Storable(name)
    ensures Terminated(Encode(name, inode)) <==> ValidName(name)
    ensures ValidName(name) ==> Decode(Encode(name, inode)) == Entry(NameKept(name), inode)
    ensures NameKept(name) == name <==> forall k :: 0 <= k < |name| ==> name[k] != 0
  {
    var e, n := Encode(name, inode), FirstNul(name, 0);
    NoNulBefore(name, 0);
    assert forall j :: 0 <= j < n ==> e[j] == name[j];
    if n <= NAME_LENGTH_LIMIT {
      FirstNulIs(e, 0, n);
      assert e[..n] == NameKept(name);
    } else {
      NotTerminated(e);
    }
    InodeBytes(name, inode);
    NulWithin(name);
  }

  lemma NotTerminated(e: seq<u8>)
    requires |e| == DIRENT_SZ && forall j :: 0 <= j <= NAME_LENGTH_LIMIT ==> e[j] != 0
    ensures !Terminated(e)
  {
  }

  lemma NulWithin(name: seq<u8>)
    ensures NameKept(name) == name <==> forall k :: 0 <= k < |name| ==> name[k] != 0
  {
    NoNulBefore(name, 0);
  }

  lemma InodeBytes(name: seq<u8>, inode: u32)
    requires Storable(name)
    ensures var e := Encode(name, inode); Word(e[28], e[29], e[30], e[31]) == inode
  {
    var e := Encode(name, inode);
    assert e[28..] == LE4(inode);
    assert e[28] == e[28..][0] && e[29] == e[28..][1] && e[30] == e[28..][2] && e[31] == e[28..][3];
    WordLE4(inode);
  }

  // ---- the list of entries ----

  predicate WellFormed(s: seq<u8>) {
    if |s| < DIRENT_SZ then s == [] else Terminated(s[..DIRENT_SZ]) && WellFormed(s[DIRENT_SZ..])
  }

  function Entries(s: seq<u8>): (es: seq<Entry>)
    ensures |es| == |s| / DIRENT_SZ
  {
    if |s| < DIRENT_SZ then [] else [Decode(s[..DIRENT_SZ])] + Entries(s[DIRENT_SZ..])
  }

  lemma {:induction false} WholeEntries(s: seq<u8>)
    requires WellFormed(s)
    ensures |s| == DIRENT_SZ * |Entries(s)|
  {
    if |s| >= DIRENT_SZ { WholeEntries(s[DIRENT_SZ..]); }
  }

  lemma {:induction false} EntryAt(s: seq<u8>, k: nat)
    requires WellFormed(s) && k < |Entries(s)|
    ensures DIRENT_SZ * k + DIRENT_SZ <= |s|
    ensures Terminated(s[DIRENT_SZ * k..DIRENT_SZ * k + DIRENT_SZ])
    ensures Entries(s)[k] == Decode(s[DIRENT_SZ * k..DIRENT_SZ * k + DIRENT_SZ])
  {
    if k == 0 {
      assert s[DIRENT_SZ * k..DIRENT_SZ * k + DIRENT_SZ] == s[..DIRENT_SZ];
    } else {
      EntryAt(s[DIRENT_SZ..], k - 1);
      DropSlice(s, DIRENT_SZ, DIRENT_SZ * (k - 1), DIRENT_SZ * k);
    }
  }

  lemma {:induction false} AppendEntry(s: seq<u8>, e: seq<u8>)
    requires WellFormed(s) && |e| == DIRENT_SZ
    ensures WellFormed(s + e) <==> Terminated(e)
    ensures Entries(s + e) == Entries(s) + [Decode(e)]
  {
    if s == [] {
      assert s + e == e && e[..DIRENT_SZ] == e && e[DIRENT_SZ..] == [];
    } else {
      assert (s + e)[..DIRENT_SZ] == s[..DIRENT_SZ] && (s + e)[DIRENT_SZ..] == s[DIRENT_SZ..] + e;
      AppendEntry(s[DIRENT_SZ..], e);
    }
  }

  lemma WrittenAtEnd(s: seq<u8>, e: seq<u8>)
    ensures Written(s, |s|, e) == s + e
  {
  }

  /** The inode of the first entry with that name. */
  function Lookup(es: seq<Entry>, name: seq<u8>): Option<u32> {
    if es == [] then None else if es[0].name == name then Some(es[0].inode) else Lookup(es[1..], name)
  }

  /** `Lookup` finds the first match, and finds one whenever there is one. */
  lemma {:induction false} LookupFirst(es: seq<Entry>, name: seq<u8>)
    ensures Lookup(es, name).None? <==> forall k :: 0 <= k < |es| ==> es[k].name != name
    ensures Lookup(es, name).Some? ==>
              exists k :: 0 <= k < |es| && es[k] == Entry(name, Lookup(es, name).value)
                && forall j :: 0 <= j < k ==> es[j].name != name
  {
    if es != [] {
      LookupFirst(es[1..], name);
      if es[0].name == name {
        assert es[0] == Entry(name, Lookup(es, name).value);
      } else if Lookup(es, name).Some? {
        var k :| 0 <= k < |es[1..]| && es[1..][k] == Entry(name, Lookup(es, name).value)
          && forall j :: 0 <= j < k ==> es[1..][j].name != name;
        assert es[k + 1] == Entry(name, Lookup(es, name).value);
        assert forall j :: 0 < j < k + 1 ==> es[j] == es[1..][j - 1];
      } else {
        assert forall k :: 0 < k < |es| ==> es[k] == es[1..][k - 1];
      }
    }
  }

  /** Appending an entry changes the lookup of its own name only, and that only when the name was unknown. */
  lemma {:induction false} LookupAppend(es: seq<Entry>, e: Entry, name: seq<u8>)
    ensures Lookup(es + [e], name) == if name == e.name && Lookup(es, name).None? then Some(e.inode)
              else Lookup(es, name)
  {
    if es == [] {
      assert es + [e] == [e];
    } else {
      assert (es + [e])[1..] == es[1..] + [e];
      LookupAppend(es[1..], e, name);
    }
  }

  function Names(es: seq<Entry>): (ns: seq<seq<u8>>)
    ensures |ns| == |es| && forall k :: 0 <= k < |es| ==> ns[k] == es[k].name
  {
    seq(|es|, k requires 0 <= k < |es| => es[k].name)
  }

  // ---- directories on disk ----

  ghost function EntriesOf(fs: EasyFs, blocks: seq<Block>, dir: nat): seq<Entry>
    requires fs.Geometry(|blocks|) && dir < fs.InodeCount()
  {
    Entries(fs.File(blocks, dir))
  }

  /** A directory whose entries are well formed and lead to allocated inodes. */
  ghost predicate DirOk(fs: EasyFs, blocks: seq<Block>, dir: nat)
    requires fs.Geometry(|blocks|) && dir < fs.InodeCount()
  {
    && fs.Inodes(blocks)[dir].kind == DIRECTORY && WellFormed(fs.File(blocks, dir))
    && forall k :: 0 <= k < |EntriesOf(fs, blocks, dir)| ==> Leads(fs, blocks, EntriesOf(fs, blocks, dir)[k])
  }

  ghost function DirEntries(dir: VfsInode): seq<Entry>
    requires dir.fs.Geometry(|dir.store.blocks|) && dir.id < dir.fs.InodeCount()
    reads dir, dir.store
  {
    EntriesOf(dir.fs, dir.store.blocks, dir.id)
  }

  ghost predicate IsDirectory(dir: VfsInode)
    reads dir, dir.store
  {
    dir.Valid() && DirOk(dir.fs, dir.store.blocks, dir.id)
  }

  ghost predicate Leads(fs: EasyFs, blocks: seq<Block>, e: Entry)
    requires fs.Geometry(|blocks|)
  {
    e.inode < fs.InodeCount() && fs.inodeBitmap.IsSet(blocks, e.inode)
  }

  /** The 32 bytes of entry k, read into a fresh buffer. */
  method ReadEntry(d: DiskInode, k: nat, store: BlockStore) returns (dirent: seq<u8>)
    requires DataBlocks(d.size) <= MAX_BLOCKS
    requires Walkable(Tree(d.Value(), store.blocks), |store.blocks|, store.held)
    requires DIRENT_SZ * k + DIRENT_SZ <= d.size
    requires store.Sound()
    modifies store`held, store`trace
    ensures store.Sound()
    ensures store.held == old(store.held)
    ensures dirent == Content(d.Value(), store.blocks)[DIRENT_SZ * k..DIRENT_SZ * k + DIRENT_SZ]
  {
    var buf := new u8[DIRENT_SZ];
    ghost var before := buf[..];
    var n := d.ReadAt(DIRENT_SZ * k, buf, store);
    assert n == DIRENT_SZ;
    dirent := buf[..];
    CopiedPart(before, dirent, d.Value(), store.blocks, DIRENT_SZ * k, n);
  }

  /** Scans a directory record for a name; it must be that of a directory. */
  method FindInodeId(name: seq<u8>, d: DiskInode, store: BlockStore) returns (found: Option<u32>)
    requires d.kind == DIRECTORY && DataBlocks(d.size) <= MAX_BLOCKS
    requires Walkable(Tree(d.Value(), store.blocks), |store.blocks|, store.held)
    requires WellFormed(Content(d.Value(), store.blocks))
    requires store.Sound()
    modifies store`held, store`trace
    ensures store.Sound()
    ensures store.held == old(store.held)
    ensures found == Lookup(Entries(Content(d.Value(), store.blocks)), name)
  {
    ghost var s := Content(d.Value(), store.blocks);
    ghost var es := Entries(s);
    WholeEntries(s);
    var fileCount := d.size / DIRENT_SZ;
    assert es[0..] == es;
    for i := 0 to fileCount
      invariant store.held == old(store.held)
      invariant store.Sound()
      invariant Lookup(es, name) == Lookup(es[i..], name)
    {
      var dirent := ReadEntry(d, i, store);
      EntryAt(s, i);
      assert es[i..][1..] == es[i + 1..];
      if Decode(dirent).name == name {
        return Some(Decode(dirent).inode);
      }
    }
    found := None;
  }

  /** A handle to the first entry with that name. */
  method Find(dir: VfsInode, name: seq<u8>) returns (found: Option<VfsInode>)
    requires IsDirectory(dir)
    requires dir.store.Sound()
    modifies dir.store`held, dir.store`trace
    ensures dir.store.Sound()
    ensures IsDirectory(dir)
    ensures found.Some? <==> Lookup(DirEntries(dir), name).Some?
    ensures found.Some? ==>
              && found.value.id == Lookup(DirEntries(dir), name).value
              && found.value.fs == dir.fs && found.value.store == dir.store && found.value.Valid()
  {
    ghost var es := DirEntries(dir);
    var d, owner := dir.Load();
    var id := FindInodeId(name, d, dir.store);
    dir.store.Unlock();
    if id.None? {
      return None;
    }
    LookupFirst(es, name);
    ghost var k :| 0 <= k < |es| && es[k] == Entry(name, id.value);
    assert Leads(dir.fs, dir.store.blocks, es[k]);
    var inode := new VfsInode(id.value, dir.fs, dir.store);
    found := Some(inode);
  }

  /** All names, in the order in which they were created. */
  method Readdir(dir: VfsInode) returns (names: seq<seq<u8>>)
    requires IsDirectory(dir)
    requires dir.store.Sound()
    modifies dir.store`held, dir.store`trace
    ensures dir.store.Sound()
    ensures IsDirectory(dir)
    ensures names == Names(DirEntries(dir))
  {
    var d, owner := dir.Load();
    names := ListNames(d, dir.store);
    dir.store.Unlock();
  }

  method ListNames(d: DiskInode, store: BlockStore) returns (names: seq<seq<u8>>)
    requires DataBlocks(d.size) <= MAX_BLOCKS
    requires Walkable(Tree(d.Value(), store.blocks), |store.blocks|, store.held)
    requires WellFormed(Content(d.Value(), store.blocks))
    requires store.Sound()
    modifies store`held, store`trace
    ensures store.Sound()
    ensures store.held == old(store.held)
    ensures names == Names(Entries(Content(d.Value(), store.blocks)))
  {
    ghost var s := Content(d.Value(), store.blocks);
    ghost var es := Entries(s);
    WholeEntries(s);
    var fileCount := d.size / DIRENT_SZ;
    names := [];
    for i := 0 to fileCount
      invariant store.held == old(store.held)
      invariant store.Sound()
      invariant names == Names(es)[..i]
    {
      var dirent := ReadEntry(d, i, store);
      EntryAt(s, i);
      names := names + [Decode(dirent).name];
    }
  }

  // ---- creating ----

  /** After creating `name` in `dir`: one more entry, one more inode (the lowest free one), nothing else. */
  ghost predicate Created(fs: EasyFs, before: seq<Block>, after: seq<Block>, dir: nat, name: seq<u8>, id: nat)
    requires fs.Geometry(|before|) && fs.Geometry(|after|) && dir < fs.InodeCount()
  {
    && |after| == |before|
    && id < fs.InodeCount() && !fs.inodeBitmap.IsSet(before, id) && fs.inodeBitmap.SetBelow(before, id)
    && (ValidName(name) ==> EntriesOf(fs, after, dir) == EntriesOf(fs, before, dir) + [Entry(NameKept(name), id)])
    && fs.File(after, id) == [] && fs.Inodes(after)[id].kind == FILE
    && forall j :: 0 <= j < fs.InodeCount() ==>
         && (j != dir ==> fs.File(after, j) == fs.File(before, j))
         && (j != id ==> fs.Inodes(after)[j].kind == fs.Inodes(before)[j].kind)
         && (fs.inodeBitmap.IsSet(after, j) <==> j == id || fs.inodeBitmap.IsSet(before, j))
  }

  /** The blocks in use grew by what one more entry in directory `dir` needs. */
  ghost predicate EntryPaid(fs: EasyFs, before: seq<Block>, after: seq<Block>, dir: nat)
    requires fs.Geometry(|before|) && fs.Geometry(|after|) && dir < fs.InodeCount()
  {
    Paid(fs, before, after, dir, |fs.File(before, dir)|, DIRENT_SZ)
  }

  /** Creating a file adds an entry; whether the directory can still be read depends on the name alone. */
  lemma CreatedSteps(fs: EasyFs, before: seq<Block>, made: seq<Block>, after: seq<Block>, dir: nat, name: seq<u8>,
      id: u32)
    requires fs.Geometry(|before|) && dir < fs.InodeCount() && DirOk(fs, before, dir) && Storable(name)
    requires fs.Consistent(before) && NewInode(fs, before, made, id)
    requires fs.inodeBitmap.IsSet(before, dir) && !fs.inodeBitmap.IsSet(before, id)
             && fs.inodeBitmap.SetBelow(before, id)
    requires fs.Geometry(|after|) && OnlyFile(fs, made, after, dir)
    requires fs.File(after, dir) == Written(fs.File(made, dir), |fs.File(made, dir)|, Encode(name, id))
    ensures DirOk(fs, after, dir) <==> ValidName(name)
    ensures fs.File(after, dir) == fs.File(before, dir) + Encode(name, id)
    ensures Created(fs, before, after, dir, name, id)
  {
    var s := fs.File(before, dir);
    DecodeEncode(name, id);
    AppendEntry(s, Encode(name, id));
    WrittenAtEnd(s, Encode(name, id));
    FreeEmpty(fs, before, id);
    if ValidName(name) {
      LeadsKept(fs, before, after, EntriesOf(fs, before, dir));
      assert Leads(fs, after, Entry(NameKept(name), id));
    }
  }

  lemma PaidSteps(fs: EasyFs, before: seq<Block>, made: seq<Block>, after: seq<Block>, dir: nat, id: u32)
    requires fs.Geometry(|before|) && dir < fs.InodeCount() && fs.Geometry(|after|) && NewInode(fs, before, made, id)
    requires fs.inodeBitmap.IsSet(before, dir) && !fs.inodeBitmap.IsSet(before, id) && EntryPaid(fs, made, after, dir)
    ensures EntryPaid(fs, before, after, dir)
  {
  }

  lemma LeadsKept(fs: EasyFs, before: seq<Block>, after: seq<Block>, es: seq<Entry>)
    requires fs.Geometry(|before|) && fs.Geometry(|after|)
    requires forall k :: 0 <= k < |es| ==> Leads(fs, before, es[k])
    requires forall j :: 0 <= j < fs.InodeCount() && fs.inodeBitmap.IsSet(before, j) ==> fs.inodeBitmap.IsSet(after, j)
    ensures forall k :: 0 <= k < |es| ==> Leads(fs, after, es[k])
  {
    forall k | 0 <= k < |es|
      ensures Leads(fs, after, es[k])
    {
      assert Leads(fs, before, es[k]);
    }
  }

  lemma FreeEmpty(fs: EasyFs, blocks: seq<Block>, i: nat)
    requires fs.Geometry(|blocks|) && fs.Consistent(blocks) && i < fs.InodeCount() && !fs.inodeBitmap.IsSet(blocks, i)
    ensures fs.File(blocks, i) == []
  {
    var owner: Owners :| fs.OwnedBy(blocks, owner);
    assert fs.Inodes(blocks)[i].size == 0;
    EmptyFile(fs.Inodes(blocks)[i], blocks);
  }

  /** What taking and initialising a free inode does. */
  ghost predicate NewInode(fs: EasyFs, before: seq<Block>, after: seq<Block>, i: nat)
    requires fs.Geometry(|before|)
  {
    && |after| == |before| && i < fs.InodeCount()
    && fs.Inodes(after) == fs.Inodes(before)[i := Initialized(FILE)]
    && fs.Used(after) == fs.Used(before)
    && forall j :: 0 <= j < fs.InodeCount() ==>
         && fs.File(after, j) == fs.File(before, j)
         && (fs.inodeBitmap.IsSet(after, j) <==> j == i || fs.inodeBitmap.IsSet(before, j))
  }

  lemma InodeMade(fs: EasyFs, before: seq<Block>, mid: seq<Block>, i: nat)
    requires fs.Geometry(|before|) && fs.Consistent(before)
    requires fs.inodeBitmap.OnlyBitmapChanged(before, mid) && i < fs.InodeCount() && !fs.inodeBitmap.IsSet(before, i)
    requires forall j :: 0 <= j < fs.InodeCount() ==> (fs.inodeBitmap.IsSet(mid, j) <==>
             j == i || fs.inodeBitmap.IsSet(before, j))
    ensures fs.inodeAreaStart + i / INODES_PER_BLOCK < |mid|
    ensures fs.Consistent(PutInode(fs, mid, i, Initialized(FILE)))
    ensures NewInode(fs, before, PutInode(fs, mid, i, Initialized(FILE)), i)
  {
    var owner: Owners :| fs.OwnedBy(before, owner);
    var d := Initialized(FILE);
    var after := PutInode(fs, mid, i, d);
    InodeMadeRecords(fs, before, mid, i);
    InodeMadeState(fs, before, after, owner, i, d);
    LoadedOwner(fs, before, owner);
    assert fs.OwnedBy(after, owner);
    LoadedOwner(fs, after, owner);
  }

  lemma InodeMadeRecords(fs: EasyFs, before: seq<Block>, mid: seq<Block>, i: nat)
    requires fs.Geometry(|before|) && fs.SuperOk(before)
    requires fs.inodeBitmap.OnlyBitmapChanged(before, mid) && i < fs.InodeCount()
    requires forall j :: 0 <= j < fs.InodeCount() ==> (fs.inodeBitmap.IsSet(mid, j) <==>
             j == i || fs.inodeBitmap.IsSet(before, j))
    ensures fs.inodeAreaStart + i / INODES_PER_BLOCK < |mid|
    ensures var after := PutInode(fs, mid, i, Initialized(FILE));
            && fs.Inodes(after) == fs.Inodes(before)[i := Initialized(FILE)] && fs.SuperOk(after)
            && (forall j :: 0 <= j < fs.InodeCount() ==> (fs.inodeBitmap.IsSet(after, j) <==>
                 j == i || fs.inodeBitmap.IsSet(before, j)))
            && (forall b :: fs.dataBitmap.start <= b < |before| ==> after[b] == before[b])
  {
    PutInodeInodes(fs, mid, i, Initialized(FILE));
    PutInodeFrame(fs, mid, i, Initialized(FILE));
    forall j | 0 <= j < fs.InodeCount()
      ensures fs.Inodes(mid)[j] == fs.Inodes(before)[j]
    {
      fs.InodeIs(before, j);
      fs.InodeIs(mid, j);
    }
    assert fs.Inodes(mid) == fs.Inodes(before);
  }

  /** Replacing the record of an empty file by another empty one changes no tree. */
  lemma InodeMadeState(fs: EasyFs, before: seq<Block>, after: seq<Block>, owner: Owners, i: nat, d: Inode)
    requires fs.Geometry(|before|) && fs.OwnedBy(before, owner) && |after| == |before|
    requires i < fs.InodeCount() && !fs.inodeBitmap.IsSet(before, i) && d.size == 0
    requires forall b :: fs.dataBitmap.start <= b < |before| ==> after[b] == before[b]
    ensures fs.State(after, fs.Inodes(before)[i := d], owner)
    ensures Content(d, after) == [] == fs.File(before, i)
    ensures forall j :: 0 <= j < fs.InodeCount() ==> Content(fs.Inodes(before)[j], after) == fs.File(before, j)
  {
    var inodes := fs.Inodes(before);
    fs.Laws(before, inodes, owner);
    assert inodes[i].size == 0;
    EmptyFile(inodes[i], before);
    fs.TreesFrame(inodes, before, after, owner);
    NothingDisowned(inodes, after, owner, fs.dataAreaStart, i);
    ClearTrees(inodes, after, owner, fs.dataAreaStart, i, d);
    fs.BitsFrame(before, after, owner.Keys);
    assert fs.FreeZero(after, owner.Keys);
  }

  lemma NothingDisowned(inodes: seq<Inode>, blocks: seq<Block>, owner: Owners, lo: nat, i: nat)
    requires Trees(inodes, blocks, owner, lo) && i < |inodes| && inodes[i].size == 0
    ensures Disowned(owner, i) == owner
  {
    var trees := AllTrees(inodes, blocks);
    assert trees[i] == [];
    forall b | b in owner
      ensures owner[b] != i
    {
      assert b in trees[owner[b]];
    }
  }

  /** Takes the lowest free inode and initialises its record as that of an empty file. */
  method MakeInode(fs: EasyFs, store: BlockStore) returns (id: u32)
    requires fs.Geometry(|store.blocks|) && fs.Consistent(store.blocks) && store.held == []
    requires exists j :: 0 <= j < fs.InodeCount() && !fs.inodeBitmap.IsSet(store.blocks, j)
    requires store.Sound()
    modifies store
    ensures store.Sound()
    ensures store.held == [] && fs.Consistent(store.blocks) && NewInode(fs, old(store.blocks), store.blocks, id)
    ensures !fs.inodeBitmap.IsSet(old(store.blocks), id) && fs.inodeBitmap.SetBelow(old(store.blocks), id)
  {
    ghost var before := store.blocks;
    id := AllocInode(fs, store);
    ghost var mid := store.blocks;
    var (blockId, offset) := fs.GetDiskInodePos(id);
    fs.InodeInArea(|store.blocks|, id);
    var x := store.Fetch(blockId);
    store.Put(blockId, WithInode(x, offset / INODE_SIZE, Initialized(FILE)));
    assert store.blocks == PutInode(fs, mid, id, Initialized(FILE));
    InodeMade(fs, before, mid, id);
  }

  lemma WholeSize(size: nat)
    requires size % DIRENT_SZ == 0
    ensures size / DIRENT_SZ * DIRENT_SZ == size
  {
  }

  /** Writes an entry behind the last one. */
  method AppendDirEntry(dir: VfsInode, dirent: seq<u8>)
    requires dir.Valid() && |dirent| == DIRENT_SZ && |dir.Contents()| % DIRENT_SZ == 0
             && dir.Fits(|dir.Contents()|, DIRENT_SZ)
    requires dir.store.Sound()
    modifies dir.store
    ensures dir.store.Sound() && dir.store.synced
    ensures dir.WroteTo(|old(dir.Contents())|, dirent)
    ensures EntryPaid(dir.fs, old(dir.store.blocks), dir.store.blocks, dir.id)
  {
    var d, owner := dir.Load();
    assert d.size == |dir.Contents()|;
    var fileCount := d.size / DIRENT_SZ;
    WholeSize(d.size);
    var n := dir.Modify(fileCount * DIRENT_SZ, dirent, d, owner);
    dir.store.SyncAll();
  }

  /** Creates an empty file under a name. */
  method CreateFile(dir: VfsInode, name: seq<u8>) returns (inode: VfsInode)
    requires IsDirectory(dir) && Storable(name)
    requires exists j :: 0 <= j < dir.fs.InodeCount() && !dir.fs.inodeBitmap.IsSet(dir.store.blocks, j)
    requires dir.Fits(|dir.Contents()|, DIRENT_SZ)
    requires dir.store.Sound()
    modifies dir.store
    ensures dir.store.Sound() && dir.store.synced
    ensures dir.Valid() && (IsDirectory(dir) <==> ValidName(name))
    ensures Created(dir.fs, old(dir.store.blocks), dir.store.blocks, dir.id, name, inode.id)
    ensures inode.id < 0x1_0000_0000 && dir.Contents() == old(dir.Contents()) + Encode(name, inode.id)
    ensures EntryPaid(dir.fs, old(dir.store.blocks), dir.store.blocks, dir.id)
    ensures inode.fs == dir.fs && inode.store == dir.store && inode.Valid()
  {
    var fs, store := dir.fs, dir.store;
    ghost var before := store.blocks;
    var newInodeId := MakeInode(fs, store);
    ghost var made := store.blocks;
    WholeEntries(fs.File(before, dir.id));
    AppendDirEntry(dir, Encode(name, newInodeId));
    CreatedSteps(fs, before, made, store.blocks, dir.id, name, newInodeId);
    PaidSteps(fs, before, made, store.blocks, dir.id, newInodeId);
    inode := new VfsInode(newInodeId, fs, store);
  }
}
