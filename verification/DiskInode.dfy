/** The in-memory inode record and its four loops: growing, clearing, reading and writing. */
module DiskInodes {
  import opened BlockViews
  import opened InodeTree
  import opened BlockStorage
  import opened Sequences

  type Pointers = s: seq<u32> | |s| == DIRECT witness seq(DIRECT, _ => 0)

  /** The data blocks of a file, in file order. */
  function DataIds(d: Inode, blocks: seq<Block>): (ids: seq<u32>)
    ensures |ids| == DataBlocks(d.size)
    ensures forall i {:trigger Pos(i)} :: 0 <= i < |ids| ==> ids[i] == NodeAt(d, blocks, Pos(i))
  {
    DataNodes(d, blocks, 0, DataBlocks(d.size))
  }

  function DataNodes(d: Inode, blocks: seq<Block>, i: nat, n: nat): (ids: seq<u32>)
    ensures |ids| == n
    ensures forall j {:trigger Pos(j)} :: i <= j < i + n ==> ids[j - i] == NodeAt(d, blocks, Pos(j))
    decreases n
  {
    if n == 0 then [] else [NodeAt(d, blocks, Pos(i))] + DataNodes(d, blocks, i + 1, n - 1)
  }

  /** The bytes of block `id`. */
  ghost predicate IsBytesAt(s: seq<u8>, blocks: seq<Block>, id: nat) {
    |s| == BLOCK_SZ && forall b {:trigger AsBytes(b)} :: id < |blocks| && b == blocks[id] ==> s == AsBytes(b)
  }

  ghost function BytesAt(blocks: seq<Block>, id: nat): (s: seq<u8>)
    ensures |s| == BLOCK_SZ
  {
    assert IsBytesAt(if id < |blocks| then AsBytes(blocks[id]) else Zeros(BLOCK_SZ), blocks, id);
    var s: seq<u8> :| IsBytesAt(s, blocks, id);
    s
  }

  lemma BytesAtIs(blocks: seq<Block>, id: nat)
    requires id < |blocks|
    ensures BytesAt(blocks, id) == AsBytes(blocks[id])
  {
  }

  /** The bytes of the given blocks, one after the other. */
  ghost function FileBytes(blocks: seq<Block>, ids: seq<u32>): (s: seq<u8>)
    ensures |s| == BLOCK_SZ * |ids|
  {
    if ids == [] then [] else BytesAt(blocks, ids[0]) + FileBytes(blocks, ids[1..])
  }

  /** `s` holds the data blocks of the file, one after the other, slack included. */
  ghost predicate IsDataBytes(s: seq<u8>, d: Inode, blocks: seq<Block>) {
    && |s| == BLOCK_SZ * DataBlocks(d.size)
    && forall ids {:trigger FileBytes(blocks, ids)} :: ids == DataIds(d, blocks) ==> s == FileBytes(blocks, ids)
  }

  /** The bytes of all data blocks. They are given by what characterises them, so that proofs that only pass
      them on do not compute them; `DataBytesAre` spells them out. */
  ghost function DataBytes(d: Inode, blocks: seq<Block>): (s: seq<u8>)
    ensures |s| == BLOCK_SZ * DataBlocks(d.size)
  {
    assert IsDataBytes(FileBytes(blocks, DataIds(d, blocks)), d, blocks);
    var s: seq<u8> :| IsDataBytes(s, d, blocks);
    s
  }

  lemma DataBytesAre(d: Inode, blocks: seq<Block>)
    ensures DataBytes(d, blocks) == FileBytes(blocks, DataIds(d, blocks))
  {
    assert |FileBytes(blocks, DataIds(d, blocks))| == BLOCK_SZ * DataBlocks(d.size);
  }

  /** The file as a byte sequence: its data blocks, cut off at its size. */
  ghost function Content(d: Inode, blocks: seq<Block>): (s: seq<u8>)
    ensures |s| == d.size
  {
    DataBytes(d, blocks)[..d.size]
  }

  lemma {:induction false} FileBytesAt(blocks: seq<Block>, ids: seq<u32>, i: nat)
    requires InRange(ids, |blocks|) && i < |ids|
    ensures BLOCK_SZ * i + BLOCK_SZ <= |FileBytes(blocks, ids)|
    ensures FileBytes(blocks, ids)[BLOCK_SZ * i..BLOCK_SZ * i + BLOCK_SZ] == AsBytes(blocks[ids[i]])
  {
    if i > 0 {
      FileBytesAt(blocks, ids[1..], i - 1);
      var s, t := FileBytes(blocks, ids), FileBytes(blocks, ids[1..]);
      assert s[BLOCK_SZ..] == t;
      assert s[BLOCK_SZ * i..BLOCK_SZ * i + BLOCK_SZ] == t[BLOCK_SZ * (i - 1)..BLOCK_SZ * (i - 1) + BLOCK_SZ];
    }
  }

  lemma FileBytesSlice(blocks: seq<Block>, ids: seq<u32>, i: nat, off: nat, count: nat)
    requires InRange(ids, |blocks|) && i < |ids| && off + count <= BLOCK_SZ
    ensures BLOCK_SZ * i + BLOCK_SZ <= |FileBytes(blocks, ids)|
    ensures FileBytes(blocks, ids)[BLOCK_SZ * i + off..BLOCK_SZ * i + off + count]
              == AsBytes(blocks[ids[i]])[off..off + count]
  {
    FileBytesAt(blocks, ids, i);
    SliceSlice(FileBytes(blocks, ids), BLOCK_SZ * i, BLOCK_SZ * i + BLOCK_SZ, off, off + count);
  }

  lemma {:induction false} FileBytesFrame(before: seq<Block>, after: seq<Block>, ids: seq<u32>)
    requires InRange(ids, |before|) && InRange(ids, |after|)
    requires forall i :: 0 <= i < |ids| ==> after[ids[i]] == before[ids[i]]
    ensures FileBytes(after, ids) == FileBytes(before, ids)
  {
    if ids != [] {
      FileBytesFrame(before, after, ids[1..]);
      BytesAtIs(before, ids[0]);
      BytesAtIs(after, ids[0]);
    }
  }

  lemma {:induction false} FileBytesAppend(blocks: seq<Block>, ids: seq<u32>, more: seq<u32>)
    requires InRange(ids + more, |blocks|)
    ensures InRange(ids, |blocks|) && InRange(more, |blocks|)
    ensures FileBytes(blocks, ids + more) == FileBytes(blocks, ids) + FileBytes(blocks, more)
  {
    assert forall i :: 0 <= i < |ids| ==> ids[i] == (ids + more)[i];
    assert forall i :: 0 <= i < |more| ==> more[i] == (ids + more)[|ids| + i];
    if ids == [] {
      assert ids + more == more;
    } else {
      assert (ids + more)[1..] == ids[1..] + more;
      FileBytesAppend(blocks, ids[1..], more);
    }
  }

  lemma {:induction false} FileBytesZero(blocks: seq<Block>, ids: seq<u32>)
    requires InRange(ids, |blocks|)
    requires forall i :: 0 <= i < |ids| ==> AsBytes(blocks[ids[i]]) == Zeros(BLOCK_SZ)
    ensures FileBytes(blocks, ids) == Zeros(BLOCK_SZ * |ids|)
  {
    if ids != [] { FileBytesZero(blocks, ids[1..]); }
  }

  /** Overwriting one of the blocks overwrites its stretch of the file. */
  lemma {:induction false} FileBytesPut(blocks: seq<Block>, ids: seq<u32>, i: nat, x: Block)
    requires InRange(ids, |blocks|) && NoDup(ids) && i < |ids|
    ensures FileBytes(blocks[ids[i] := x], ids) == Splice(FileBytes(blocks, ids), BLOCK_SZ * i, AsBytes(x))
  {
    var after := blocks[ids[i] := x];
    var head, tail := AsBytes(blocks[ids[0]]), FileBytes(blocks, ids[1..]);
    if i == 0 {
      FileBytesFrame(blocks, after, ids[1..]);
      SpliceHead(head, tail, AsBytes(x));
    } else {
      assert ids[1..][i - 1] == ids[i];
      FileBytesPut(blocks, ids[1..], i - 1, x);
      SpliceTail(head, tail, BLOCK_SZ * (i - 1), AsBytes(x));
    }
  }

  lemma SpliceHead(h: seq<u8>, t: seq<u8>, x: seq<u8>)
    requires |x| == |h|
    ensures Splice(h + t, 0, x) == x + t
  {
  }

  lemma SpliceTail(h: seq<u8>, t: seq<u8>, at: nat, x: seq<u8>)
    requires at + |x| <= |t|
    ensures Splice(h + t, |h| + at, x) == h + Splice(t, at, x)
  {
    assert (h + t)[..|h| + at] == h + t[..at];
    assert (h + t)[|h| + at + |x|..] == t[at + |x|..];
  }

  lemma SpliceNothing(s: seq<u8>, at: nat)
    requires at <= |s|
    ensures Splice(s, at, []) == s
  {
  }

  lemma SpliceSplice(s: seq<u8>, at: nat, a: seq<u8>, b: seq<u8>)
    requires at + |a| + |b| <= |s|
    ensures Splice(Splice(s, at, a), at + |a|, b) == Splice(s, at, a + b)
  {
  }

  /** Overwriting a stretch with its own patched content patches the whole. */
  lemma SpliceWithin(s: seq<u8>, at: nat, t: seq<u8>, t': seq<u8>, off: nat, b: seq<u8>)
    requires at + |t| <= |s| && s[at..at + |t|] == t && off + |b| <= |t| && t' == Splice(t, off, b)
    ensures Splice(s, at, t') == Splice(s, at + off, b)
  {
    if b == [] {
      assert s[..at] + t + s[at + |t|..] == s;
    } else {
      assert s[..at] + t[..off] == s[..at + off];
      assert t[off + |b|..] + s[at + |t|..] == s[at + off + |b|..];
    }
  }

  ghost predicate IsDataNode(t: seq<u32>, b: nat) {
    exists k :: 0 <= k < |t| && !IsIndex(k) && t[k] == b
  }

  ghost predicate OnlyDataChanged(t: seq<u32>, before: seq<Block>, after: seq<Block>) {
    |after| == |before| &&
    forall b :: 0 <= b < |before| && !IsDataNode(t, b) ==> after[b] == before[b]
  }

  /** A tree that can be walked: no block twice, all on the device, none of them locked by the caller. */
  ghost predicate Walkable(t: seq<u32>, n: nat, held: seq<nat>) {
    NoDup(t) && InRange(t, n) && |held| == 1 && forall k :: 0 <= k < |t| ==> t[k] !in held
  }

  lemma DataIdsInTree(d: Inode, blocks: seq<Block>)
    ensures forall i :: 0 <= i < DataBlocks(d.size) ==>
              Pos(i) < |Tree(d, blocks)| && DataIds(d, blocks)[i] == Tree(d, blocks)[Pos(i)] && !IsIndex(Pos(i))
    ensures NoDup(Tree(d, blocks)) ==> NoDup(DataIds(d, blocks))
    ensures forall n :: InRange(Tree(d, blocks), n) ==> InRange(DataIds(d, blocks), n)
  {
    forall i | 0 <= i < DataBlocks(d.size)
      ensures Pos(i) < |Tree(d, blocks)| && DataIds(d, blocks)[i] == Tree(d, blocks)[Pos(i)] && !IsIndex(Pos(i))
    {
      PosInTree(i, DataBlocks(d.size));
      PosLast(i);
    }
    forall i, j | 0 <= i < j < DataBlocks(d.size)
      ensures Pos(i) < Pos(j)
    {
      PosInjective(i, j);
    }
  }

  lemma DataIdsFromTree(d: Inode, before: seq<Block>, after: seq<Block>)
    requires Tree(d, after) == Tree(d, before)
    ensures DataIds(d, after) == DataIds(d, before)
  {
    DataIdsInTree(d, before);
    DataIdsInTree(d, after);
  }

  /** The tree depends on the inode record and on its index blocks only. */
  lemma TreeFrame(d: Inode, before: seq<Block>, after: seq<Block>, t: seq<u32>)
    requires t == Tree(d, before) && |t| <= TreeSize(MAX_BLOCKS)
    requires |before| == |after| && InRange(t, |before|)
    requires forall k :: 0 <= k < |t| && IsIndex(k) ==> after[t[k]] == before[t[k]]
    ensures Tree(d, after) == t
  {
    forall k | 0 <= k < |t|
      ensures NodeAt(d, after, k) == t[k]
    {
      NodeFrame(d, before, after, t, k);
    }
  }

  lemma NodeFrame(d: Inode, before: seq<Block>, after: seq<Block>, t: seq<u32>, k: nat)
    requires k < |t| && |before| == |after| && InRange(t, |before|)
    requires Agree(d, before, t, |t|)
    requires forall k :: 0 <= k < |t| && IsIndex(k) ==> after[t[k]] == before[t[k]]
    ensures NodeAt(d, after, k) == NodeAt(d, before, k) == t[k]
  {
    if k >= 28 { assert NodeAt(d, before, 28) == t[28]; }
    if k >= 158 {
      assert NodeAt(d, before, 157) == t[157];
      SubNode(d, before, t, k);
    }
  }

  lemma TreeIs(d: Inode, blocks: seq<Block>, full: seq<u32>)
    requires |full| == TotalBlocks(d.size) && Agree(d, blocks, full, |full|)
    ensures Tree(d, blocks) == full
  {
  }

  /** Which blocks lead to data block `inner`, and where they are in the tree. */
  lemma BlockIdPath(d: Inode, blocks: seq<Block>, inner: nat)
    requires inner < DataBlocks(d.size) <= MAX_BLOCKS
    ensures var t := Tree(d, blocks);
            Pos(inner) < |t| &&
            if inner < DIRECT then t[Pos(inner)] == d.direct[inner]
            else if inner < INDIRECT1_BOUND then
              d.indirect1 == t[28] && t[Pos(inner)] == Ptr(blocks, d.indirect1, inner - DIRECT)
            else
              var last := inner - INDIRECT1_BOUND;
              var sub := Ptr(blocks, d.indirect2, last / PTRS);
              158 + 129 * (last / PTRS) < |t| &&
              d.indirect2 == t[157] && sub == t[158 + 129 * (last / PTRS)]
                && t[Pos(inner)] == Ptr(blocks, sub, last % PTRS)
  {
    var t := Tree(d, blocks);
    PosInTree(inner, DataBlocks(d.size));
    PosLast(inner);
    assert t[Pos(inner)] == NodeAt(d, blocks, Pos(inner));
    if DIRECT <= inner < INDIRECT1_BOUND { assert t[28] == NodeAt(d, blocks, 28); }
    if inner >= INDIRECT1_BOUND {
      var last := inner - INDIRECT1_BOUND;
      assert t[157] == NodeAt(d, blocks, 157);
      DivMod(Pos(inner) - 158, 129, last / PTRS, last % PTRS + 1);
      SubNode(d, blocks, t, Pos(inner));
    }
  }

  /** Changing the content of a data block leaves the tree alone. */
  lemma PutDataTree(d: Inode, before: seq<Block>, i: nat, x: Block)
    requires i < DataBlocks(d.size) <= MAX_BLOCKS
    requires NoDup(Tree(d, before)) && InRange(Tree(d, before), |before|)
    ensures DataIds(d, before)[i] < |before|
    ensures var t := Tree(d, before);
            var after := before[DataIds(d, before)[i] := x];
            Tree(d, after) == t && DataIds(d, after) == DataIds(d, before) && OnlyDataChanged(t, before, after)
  {
    var t := Tree(d, before);
    DataIdsInTree(d, before);
    TreeSizeMonotone(DataBlocks(d.size), MAX_BLOCKS);
    var after := before[t[Pos(i)] := x];
    TreeFrame(d, before, after, t);
    DataIdsFromTree(d, before, after);
    assert IsDataNode(t, t[Pos(i)]);
  }

  /** A write that falls into one block changes exactly the bytes it covers. */
  lemma PatchedBytes(before: seq<Block>, ids: seq<u32>, i: nat, off: nat, src: seq<u8>)
    requires i < |ids| && off + |src| <= BLOCK_SZ && InRange(ids, |before|) && NoDup(ids)
    ensures FileBytes(before[ids[i] := WithBytes(before[ids[i]], off, src)], ids)
            == Splice(FileBytes(before, ids), BLOCK_SZ * i + off, src)
  {
    var x := WithBytes(before[ids[i]], off, src);
    calc {
      FileBytes(before[ids[i] := x], ids);
      { FileBytesPut(before, ids, i, x); }
      Splice(FileBytes(before, ids), BLOCK_SZ * i, AsBytes(x));
      {
        FileBytesAt(before, ids, i);
        SpliceWithin(FileBytes(before, ids), BLOCK_SZ * i, AsBytes(before[ids[i]]), AsBytes(x), off, src);
      }
      Splice(FileBytes(before, ids), BLOCK_SZ * i + off, src);
    }
  }

  /** From `before` to `after` the file of `d` was overwritten with `src` from `start` on, and nothing else happened. */
  ghost predicate Wrote(d: Inode, before: seq<Block>, after: seq<Block>, start: nat, src: seq<u8>) {
    && Tree(d, after) == Tree(d, before)
    && OnlyDataChanged(Tree(d, before), before, after)
    && start + |src| <= BLOCK_SZ * DataBlocks(d.size)
    && DataBytes(d, after) == Splice(DataBytes(d, before), start, src)
  }

  lemma WroteNothing(d: Inode, blocks: seq<Block>, start: nat)
    requires start <= BLOCK_SZ * DataBlocks(d.size)
    ensures Wrote(d, blocks, blocks, start, [])
  {
    SpliceNothing(DataBytes(d, blocks), start);
  }

  lemma WroteMore(d: Inode, b0: seq<Block>, b1: seq<Block>, b2: seq<Block>, start: nat, mid: nat, s: seq<u8>,
      t: seq<u8>)
    requires Wrote(d, b0, b1, start, s) && Wrote(d, b1, b2, mid, t) && mid == start + |s|
    ensures Wrote(d, b0, b2, start, s + t)
  {
    SpliceSplice(DataBytes(d, b0), start, s, t);
  }

  /** Overwriting one data block of a file. */
  lemma WroteBlock(d: Inode, before: seq<Block>, i: nat, off: nat, src: seq<u8>)
    requires i < DataBlocks(d.size) <= MAX_BLOCKS && off + |src| <= BLOCK_SZ
    requires NoDup(Tree(d, before)) && InRange(Tree(d, before), |before|)
    ensures DataIds(d, before)[i] < |before|
    ensures var id := DataIds(d, before)[i];
            Wrote(d, before, before[id := WithBytes(before[id], off, src)], BLOCK_SZ * i + off, src)
  {
    DataIdsInTree(d, before);
    var id := DataIds(d, before)[i];
    var after := before[id := WithBytes(before[id], off, src)];
    PutDataTree(d, before, i, WithBytes(before[id], off, src));
    PatchedBytes(before, DataIds(d, before), i, off, src);
    DataBytesAre(d, before);
    DataBytesAre(d, after);
  }

  /** `count` bytes of the file from `start` on were copied into a buffer at position `at`. */
  ghost predicate Copied(before: seq<u8>, after: seq<u8>, at: nat, d: Inode, blocks: seq<Block>, start: nat,
      count: nat) {
    && start + count <= BLOCK_SZ * DataBlocks(d.size) && at + count <= |before|
    && after == Splice(before, at, DataBytes(d, blocks)[start..start + count])
  }

  lemma CopiedNothing(buf: seq<u8>, d: Inode, blocks: seq<Block>, start: nat)
    requires start <= BLOCK_SZ * DataBlocks(d.size)
    ensures Copied(buf, buf, 0, d, blocks, start, 0)
  {
    SpliceNothing(buf, 0);
  }

  lemma CopiedMore(b0: seq<u8>, b1: seq<u8>, b2: seq<u8>, d: Inode, blocks: seq<Block>, start: nat, mid: nat, m: nat,
      n: nat)
    requires Copied(b0, b1, 0, d, blocks, start, m) && Copied(b1, b2, m, d, blocks, mid, n) && mid == start + m
    ensures Copied(b0, b2, 0, d, blocks, start, m + n)
  {
    var s := DataBytes(d, blocks);
    SpliceSplice(b0, 0, s[start..start + m], s[start + m..start + m + n]);
    SliceJoin(s, start, start + m, start + m + n);
  }

  /** The part of the file that lies in data block i. */
  lemma DataBytesSlice(d: Inode, blocks: seq<Block>, i: nat, off: nat, count: nat)
    requires i < DataBlocks(d.size) && off + count <= BLOCK_SZ && InRange(DataIds(d, blocks), |blocks|)
    ensures BLOCK_SZ * i + BLOCK_SZ <= |DataBytes(d, blocks)|
    ensures DataBytes(d, blocks)[BLOCK_SZ * i + off..BLOCK_SZ * i + off + count]
            == AsBytes(blocks[DataIds(d, blocks)[i]])[off..off + count]
  {
    DataBytesAre(d, blocks);
    FileBytesSlice(blocks, DataIds(d, blocks), i, off, count);
  }

  /** Copies `src` into the buffer at position `at`. */
  method CopyOut(buf: array<u8>, at: nat, src: seq<u8>)
    requires at + |src| <= buf.Length
    modifies buf
    ensures buf[..] == Splice(old(buf[..]), at, src)
  {
    forall k | 0 <= k < |src| {
      buf[at + k] := src[k];
    }
  }

  /** Where the piece that starts at `start` ends: at the end of its block or of the transfer. */
  method PieceEnd(start: nat, end: nat, ghost size: nat) returns (cut: nat)
    requires start <= end <= size
    ensures start <= cut <= end && start % BLOCK_SZ + (cut - start) <= BLOCK_SZ && (start < end ==> start < cut)
    ensures cut < end ==> cut / BLOCK_SZ == start / BLOCK_SZ + 1 < DataBlocks(size)
  {
    cut := Min((start / BLOCK_SZ + 1) * BLOCK_SZ, end);
  }

  class DiskInode {
    var size: u32
    var direct: Pointers
    var indirect1: u32
    var indirect2: u32
    var kind: u32

    constructor (d: Inode)
      ensures Value() == d
    {
      size, direct, indirect1, indirect2, kind := d.size, d.direct, d.indirect1, d.indirect2, d.kind;
    }

    function Value(): Inode
      reads this
    {
      RawInode(size, direct, indirect1, indirect2, kind)
    }

    function BlocksNumNeeded(newSize: u32): nat
      requires size <= newSize
      reads this
    {
      TreeSizeMonotone(DataBlocks(size), DataBlocks(newSize));
      TotalBlocks(newSize) - TotalBlocks(size)
    }

    /** The id of data block `inner`, following the index blocks. */
    method GetBlockId(inner: nat, store: BlockStore) returns (id: u32)
      requires inner < DataBlocks(size) <= MAX_BLOCKS
      requires Walkable(Tree(Value(), store.blocks), |store.blocks|, store.held)
      requires store.Sound()
      modifies store`held, store`trace
      ensures store.Sound()
      ensures store.held == old(store.held)
      ensures id == DataIds(Value(), store.blocks)[inner] && id < |store.blocks| && id !in store.held
    {
      DataIdsInTree(Value(), store.blocks);
      BlockIdPath(Value(), store.blocks, inner);
      if inner < DIRECT {
        id := direct[inner];
      } else if inner < INDIRECT1_BOUND {
        var x := store.Fetch(indirect1);
        id := x[inner - DIRECT];
      } else {
        var last := inner - INDIRECT1_BOUND;
        var x := store.Fetch(indirect2);
        var sub := x[last / PTRS];
        var y := store.Fetch(sub);
        id := y[last % PTRS];
      }
    }

    /** Mid-way through growing: the first `done` nodes of `full` are in place. */
    ghost predicate Growing(full: seq<u32>, done: nat, store: BlockStore, before: seq<Block>, held: seq<nat>)
      reads this, store
    {
      && done <= |full| <= TreeSize(MAX_BLOCKS)
      && |store.blocks| == |before|
      && Walkable(full, |before|, held)
      && Agree(Value(), store.blocks, full, done)
      && OnlyIndexChanged(full, before, store.blocks)
    }

    /** Grows the file: the supplied blocks become, in order, the next nodes of the tree. */
    method IncreaseSize(newSize: u32, newBlocks: seq<u32>, store: BlockStore)
      requires size <= newSize && DataBlocks(newSize) <= MAX_BLOCKS
      requires BlocksNumNeeded(newSize) <= |newBlocks|
      requires Walkable(Tree(Value(), store.blocks) + newBlocks[..BlocksNumNeeded(newSize)], |store.blocks|, store.held)
      requires store.Sound()
      modifies this, store
      ensures store.Sound()
      ensures store.held == old(store.held)
      ensures size == newSize && kind == old(kind)
      ensures Tree(Value(), store.blocks) == old(Tree(Value(), store.blocks) + newBlocks[..BlocksNumNeeded(newSize)])
      ensures OnlyIndexChanged(Tree(Value(), store.blocks), old(store.blocks), store.blocks)
    {
      ghost var full := Tree(Value(), store.blocks) + newBlocks[..BlocksNumNeeded(newSize)];
      ghost var t0: nat := TotalBlocks(size);
      var currentBlocks := DataBlocks(size);
      TreeSizeMonotone(DataBlocks(newSize), MAX_BLOCKS);
      GrowStart(Value(), newSize, store.blocks, newBlocks[..BlocksNumNeeded(newSize)]);
      size := newSize;
      assert Growing(full, t0, store, old(store.blocks), store.held);
      assert full[t0..] == newBlocks[..|full| - t0];
      var totalBlocks := DataBlocks(size);
      var next;
      next, currentBlocks := FillDirect(newBlocks, currentBlocks, totalBlocks, store, full, t0, old(store.blocks));
      if totalBlocks > DIRECT {
        FillIndirect(newBlocks, next, currentBlocks, totalBlocks, store, full, t0, old(store.blocks));
      }
      TreeIs(Value(), store.blocks, full);
    }

    /** First stage: direct pointers. */
    method FillDirect(newBlocks: seq<u32>, current0: nat, totalBlocks: nat, store: BlockStore,
                      ghost full: seq<u32>, ghost t0: nat, ghost before: seq<Block>)
      returns (next: nat, currentBlocks: nat)
      requires current0 <= totalBlocks && t0 == TreeSize(current0) && |full| == TreeSize(totalBlocks)
      requires |full| <= t0 + |newBlocks| && t0 <= |full| && full[t0..] == newBlocks[..|full| - t0]
      requires Growing(full, t0, store, before, store.held)
      modifies this`direct
      ensures currentBlocks == Max(current0, Min(totalBlocks, DIRECT)) && next == currentBlocks - current0
      ensures Growing(full, t0 + next, store, before, store.held)
    {
      next, currentBlocks := 0, current0;
      while currentBlocks < Min(totalBlocks, DIRECT)
        invariant current0 <= currentBlocks <= Max(current0, Min(totalBlocks, DIRECT))
                  && next == currentBlocks - current0
        invariant Growing(full, t0 + next, store, before, store.held)
      {
        TreeSizeMonotone(currentBlocks + 1, totalBlocks);
        SetNodeAgree(Value(), store.blocks, full, t0 + next);
        assert full[t0 + next] == full[t0..][next];
        direct := direct[currentBlocks := newBlocks[next]];
        next := next + 1;
        currentBlocks := currentBlocks + 1;
      }
    }

    /** The stages behind the index blocks, each allocated when its first entry is needed. */
    method FillIndirect(newBlocks: seq<u32>, next0: nat, current0: nat, totalBlocks: nat, store: BlockStore,
                        ghost full: seq<u32>, ghost t0: nat, ghost before: seq<Block>)
      requires DIRECT <= current0 <= totalBlocks && DIRECT < totalBlocks && t0 + next0 == TreeSize(current0)
      requires t0 <= |full| <= t0 + |newBlocks| && full[t0..] == newBlocks[..|full| - t0]
      requires |full| == TreeSize(totalBlocks)
      requires Growing(full, t0 + next0, store, before, store.held)
      requires store.Sound()
      modifies this`indirect1, this`indirect2, store
      ensures store.Sound()
      ensures store.held == old(store.held)
      ensures Growing(full, |full|, store, before, store.held)
    {
      var next, currentBlocks := next0, current0;
      TreeSizeMonotone(DIRECT + 1, totalBlocks);
      if currentBlocks == DIRECT {
        SetNodeAgree(Value(), store.blocks, full, t0 + next);
        assert full[t0 + next] == full[t0..][next];
        indirect1 := newBlocks[next];
        next := next + 1;
      }
      next, currentBlocks := FillIndirect1(newBlocks, next, currentBlocks - DIRECT, totalBlocks - DIRECT, store, full,
        t0, before);
      if totalBlocks - DIRECT > PTRS {
        TreeSizeMonotone(INDIRECT1_BOUND + 1, totalBlocks);
        if currentBlocks == PTRS {
          SetNodeAgree(Value(), store.blocks, full, t0 + next);
          assert full[t0 + next] == full[t0..][next];
          indirect2 := newBlocks[next];
          next := next + 1;
        }
        FillIndirect2(newBlocks, next, currentBlocks - PTRS, totalBlocks - INDIRECT1_BOUND, store, full, t0, before);
      }
    }

    /** Entry i of the single-indirect block, which the caller has locked. */
    method AddPointer(i: nat, v: u32, store: BlockStore,
                      ghost full: seq<u32>, ghost k: nat, ghost before: seq<Block>, ghost held: seq<nat>)
      requires k == 29 + i && i < PTRS && k < |full| && full[k] == v
      requires Growing(full, k, store, before, held) && store.held == held + [full[28] as nat]
      requires store.Sound()
      modifies store`blocks, store`synced, store`trace
      ensures store.Sound()
      ensures Growing(full, k + 1, store, before, held)
    {
      assert NodeAt(Value(), store.blocks, 28) == full[28];
      SetNodeAgree(Value(), store.blocks, full, k);
      var x := store.Read(indirect1);
      store.Write(indirect1, x[i := v]);
    }

    /** Second stage: entries of the single-indirect block, counted from its start. */
    method FillIndirect1(newBlocks: seq<u32>, next0: nat, current0: nat, totalBlocks: nat, store: BlockStore,
                         ghost full: seq<u32>, ghost t0: nat, ghost before: seq<Block>)
      returns (next: nat, currentBlocks: nat)
      requires 0 < totalBlocks && current0 <= totalBlocks && 28 < t0 + next0
      requires if current0 <= PTRS then t0 + next0 == 29 + current0 else t0 + next0 == TreeSize(current0 + DIRECT)
      requires t0 <= |full| <= t0 + |newBlocks| && full[t0..] == newBlocks[..|full| - t0]
      requires |full| == TreeSize(totalBlocks + DIRECT)
      requires Growing(full, t0 + next0, store, before, store.held)
      requires store.Sound()
      modifies store
      ensures store.Sound()
      ensures store.held == old(store.held)
      ensures currentBlocks == Max(current0, Min(totalBlocks, PTRS)) && next == next0 + (currentBlocks - current0)
      ensures Growing(full, t0 + next, store, before, store.held)
    {
      next, currentBlocks := next0, current0;
      assert NodeAt(Value(), store.blocks, 28) == full[28];
      store.Lock(indirect1);
      while currentBlocks < Min(totalBlocks, PTRS)
        invariant current0 <= currentBlocks <= Max(current0, Min(totalBlocks, PTRS))
                  && next == next0 + (currentBlocks - current0)
        invariant Growing(full, t0 + next, store, before, old(store.held))
        invariant store.Sound()
        invariant indirect1 == full[28] && store.held == old(store.held) + [full[28] as nat]
      {
        TreeSizeMonotone(currentBlocks + 1 + DIRECT, totalBlocks + DIRECT);
        assert full[t0 + next] == full[t0..][next];
        AddPointer(currentBlocks, newBlocks[next], store, full, t0 + next, before, old(store.held));
        next := next + 1;
        currentBlocks := currentBlocks + 1;
      }
      store.Unlock();
    }

    /** Row a0 of the double-indirect block, which the caller has locked, gets its second-level block. */
    method AddSecondLevel(a0: nat, v: u32, store: BlockStore,
                          ghost full: seq<u32>, ghost k: nat, ghost before: seq<Block>, ghost held: seq<nat>)
      requires k == 158 + 129 * a0 && k < |full| && full[k] == v
      requires Growing(full, k, store, before, held) && store.held == held + [full[157] as nat]
      requires store.Sound()
      modifies store`blocks, store`synced, store`trace
      ensures store.Sound()
      ensures Growing(full, k + 1, store, before, held)
    {
      assert NodeAt(Value(), store.blocks, 157) == full[157];
      DivMod(k - 158, 129, a0, 0);
      SetNodeAgree(Value(), store.blocks, full, k);
      var x := store.Read(indirect2);
      store.Write(indirect2, x[a0 := v]);
    }

    /** Entry b0 of the second-level block in row a0. */
    method AddEntry(a0: nat, b0: nat, v: u32, store: BlockStore,
                    ghost full: seq<u32>, ghost k: nat, ghost before: seq<Block>, ghost held: seq<nat>)
      requires k == 159 + 129 * a0 + b0 && b0 < PTRS && k < |full| && full[k] == v
      requires Growing(full, k, store, before, held) && store.held == held + [full[157] as nat]
      requires store.Sound()
      modifies store
      ensures store.Sound()
      ensures Growing(full, k + 1, store, before, held) && store.held == old(store.held)
    {
      assert NodeAt(Value(), store.blocks, 157) == full[157];
      DivMod(k - 158, 129, a0, b0 + 1);
      SubNode(Value(), store.blocks, full, k);
      SetNodeAgree(Value(), store.blocks, full, k);
      var x := store.Read(indirect2);
      var sub := x[a0];
      var y := store.Fetch(sub);
      store.Put(sub, y[b0 := v]);
    }

    /** Third stage: walks the double-indirect block from row a0, column b0. */
    method FillIndirect2(newBlocks: seq<u32>, next0: nat, current0: nat, totalBlocks: nat, store: BlockStore,
                         ghost full: seq<u32>, ghost t0: nat, ghost before: seq<Block>)
      requires 0 < totalBlocks && current0 <= totalBlocks
      requires t0 + next0 == 158 + 129 * (current0 / PTRS) + (if current0 % PTRS == 0 then 0 else 1 + current0 % PTRS)
      requires t0 <= |full| <= t0 + |newBlocks| && full[t0..] == newBlocks[..|full| - t0]
      requires |full| == TreeSize(totalBlocks + INDIRECT1_BOUND)
      requires Growing(full, t0 + next0, store, before, store.held)
      requires store.Sound()
      modifies store
      ensures store.Sound()
      ensures store.held == old(store.held)
      ensures Growing(full, |full|, store, before, store.held)
    {
      var next := next0;
      assert NodeAt(Value(), store.blocks, 157) == full[157];
      var a0, b0 := current0 / PTRS, current0 % PTRS;
      var a1, b1 := totalBlocks / PTRS, totalBlocks % PTRS;
      store.Lock(indirect2);
      while a0 < a1 || (a0 == a1 && b0 < b1)
        invariant 0 <= a0 && 0 <= b0 < PTRS && (a0 < a1 || (a0 == a1 && b0 <= b1))
        invariant 0 <= next && t0 + next == 158 + 129 * a0 + (if b0 == 0 then 0 else 1 + b0)
        invariant Growing(full, t0 + next, store, before, old(store.held))
        invariant store.Sound()
        invariant indirect2 == full[157] && store.held == old(store.held) + [full[157] as nat]
        decreases a1 - a0, PTRS - b0
      {
        if b0 == 0 {
          assert full[t0 + next] == full[t0..][next];
          AddSecondLevel(a0, newBlocks[next], store, full, t0 + next, before, old(store.held));
          next := next + 1;
        }
        assert full[t0 + next] == full[t0..][next];
        AddEntry(a0, b0, newBlocks[next], store, full, t0 + next, before, old(store.held));
        next := next + 1;
        b0 := b0 + 1;
        if b0 == PTRS {
          b0 := 0;
          a0 := a0 + 1;
        }
      }
      store.Unlock();
    }

    /** Empties the file and lists the blocks to give back: the whole tree, in tree order. */
    method ClearSize(store: BlockStore) returns (v: seq<u32>)
      requires DataBlocks(size) <= MAX_BLOCKS
      requires Walkable(Tree(Value(), store.blocks), |store.blocks|, store.held)
      requires store.Sound()
      modifies this, store`held, store`trace
      ensures store.Sound()
      ensures v == old(Tree(Value(), store.blocks))
      ensures size == 0 && kind == old(kind) && store.held == old(store.held)
      ensures forall i :: 0 <= i < DIRECT ==> direct[i] == if i < old(DataBlocks(size)) then 0 else old(direct[i])
      ensures indirect1 == if old(DataBlocks(size)) > DIRECT then 0 else old(indirect1)
      ensures indirect2 == if old(DataBlocks(size)) > INDIRECT1_BOUND then 0 else old(indirect2)
    {
      ghost var d := Value();
      ghost var t := Tree(d, store.blocks);
      v := [];
      var dataBlocks := DataBlocks(size);
      size := 0;
      var current := 0;
      while current < Min(dataBlocks, DIRECT)
        invariant 0 <= current <= Min(dataBlocks, DIRECT)
        invariant size == 0 && kind == d.kind && store.held == old(store.held)
        invariant store.Sound()
        invariant indirect1 == d.indirect1 && indirect2 == d.indirect2
        invariant forall i :: 0 <= i < DIRECT ==> direct[i] == if i < current then 0 else d.direct[i]
        invariant v == t[..current]
      {
        assert t[current] == NodeAt(d, store.blocks, current);
        v := v + [direct[current]];
        direct := direct[current := 0];
        current := current + 1;
      }
      if dataBlocks > DIRECT {
        IndirectNodes(d, store.blocks);
        v := v + [indirect1];
        var entries := ListEntries(indirect1, Min(dataBlocks - DIRECT, PTRS), store);
        v := v + entries;
        assert v == t[..29 + Min(dataBlocks - DIRECT, PTRS)];
        indirect1 := 0;
        if dataBlocks > INDIRECT1_BOUND {
          assert t[157] == NodeAt(d, store.blocks, 157);
          v := v + [indirect2];
          var rest := ListRows(dataBlocks - INDIRECT1_BOUND, store, d, t);
          v := v + rest;
          indirect2 := 0;
        }
      }
    }

    /** The first `count` entries of an index block. */
    method ListEntries(id: u32, count: nat, store: BlockStore) returns (v: seq<u32>)
      requires store.CanLock(id) && count <= PTRS
      requires store.Sound()
      modifies store`held, store`trace
      ensures store.Sound()
      ensures v == store.blocks[id][..count] && store.held == old(store.held)
    {
      store.Lock(id);
      var x := store.Read(id);
      v := [];
      for i := 0 to count
        invariant v == x[..i]
      {
        v := v + [x[i]];
      }
      store.Unlock();
    }

    /** A second-level block followed by its entries; the caller has locked the double-indirect block `x`. */
    method ListRow(x: Block, a: nat, count: nat, store: BlockStore, ghost d: Inode, ghost t: seq<u32>)
        returns (v: seq<u32>)
      requires INDIRECT1_BOUND + a * PTRS < DataBlocks(d.size) <= MAX_BLOCKS && t == Tree(d, store.blocks)
      requires count == Min(DataBlocks(d.size) - INDIRECT1_BOUND - a * PTRS, PTRS)
      requires |store.held| == 2 && Walkable(t, |store.blocks|, store.held[..1])
      requires store.held[1] == t[157] && x == store.blocks[t[157]]
      requires store.Sound()
      modifies store`held, store`trace
      ensures store.Sound()
      ensures 159 + 129 * a + count <= |t| && v == t[158 + 129 * a..159 + 129 * a + count]
      ensures store.held == old(store.held)
    {
      RowNodes(d, store.blocks, a);
      assert t[157] != t[158 + 129 * a];
      var row := ListEntries(x[a], count, store);
      v := [x[a]] + row;
    }

    /** All rows of the double-indirect block; the last one may be partial. */
    method ListRows(dataBlocks: nat, store: BlockStore, ghost d: Inode, ghost t: seq<u32>) returns (v: seq<u32>)
      requires 0 < dataBlocks <= PTRS * PTRS
      requires DataBlocks(d.size) == dataBlocks + INDIRECT1_BOUND && t == Tree(d, store.blocks)
      requires Walkable(t, |store.blocks|, store.held) && indirect2 == d.indirect2
      requires store.Sound()
      modifies store`held, store`trace
      ensures store.Sound()
      ensures v == t[158..] && store.held == old(store.held)
    {
      v := [];
      var a1, b1 := dataBlocks / PTRS, dataBlocks % PTRS;
      RowNodes(d, store.blocks, 0);
      store.Lock(indirect2);
      var x := store.Read(indirect2);
      for a := 0 to a1
        invariant 158 + 129 * a <= |t| && v == t[158..158 + 129 * a]
        invariant store.held == old(store.held) + [t[157] as nat]
        invariant store.Sound()
      {
        var row := ListRow(x, a, PTRS, store, d, t);
        v := v + row;
      }
      if b1 > 0 {
        var row := ListRow(x, a1, b1, store, d, t);
        v := v + row;
      }
      store.Unlock();
    }

    /** One step of a read, within one block. */
    method ReadBlock(startBlock: nat, start: nat, count: nat, buf: array<u8>, at: nat, store: BlockStore)
      requires startBlock == start / BLOCK_SZ < DataBlocks(size) <= MAX_BLOCKS && start % BLOCK_SZ + count <= BLOCK_SZ
      requires Walkable(Tree(Value(), store.blocks), |store.blocks|, store.held)
      requires at + count <= buf.Length
      requires store.Sound()
      modifies buf, store`held, store`trace
      ensures store.Sound()
      ensures store.held == old(store.held)
      ensures Copied(old(buf[..]), buf[..], at, Value(), store.blocks, start, count)
    {
      var off := start % BLOCK_SZ;
      DataIdsInTree(Value(), store.blocks);
      var id := GetBlockId(startBlock, store);
      var x := store.Fetch(id);
      var src := AsBytes(x);
      CopyOut(buf, at, src[off..off + count]);
      DataBytesSlice(Value(), store.blocks, startBlock, off, count);
    }

    /** Copies the part of the file that starts at `offset` into the buffer. */
    method ReadAt(offset: nat, buf: array<u8>, store: BlockStore) returns (readSize: nat)
      requires DataBlocks(size) <= MAX_BLOCKS
      requires Walkable(Tree(Value(), store.blocks), |store.blocks|, store.held)
      requires store.Sound()
      modifies buf, store`held, store`trace
      ensures store.Sound()
      ensures store.held == old(store.held)
      ensures readSize == if offset >= size then 0 else Min(buf.Length, size - offset)
      ensures if readSize == 0 then buf[..] == old(buf[..])
              else Copied(old(buf[..]), buf[..], 0, Value(), store.blocks, offset, readSize)
    {
      ghost var d := Value();
      readSize := 0;
      var start := offset;
      var end := Min(offset + buf.Length, size);
      if start >= end { return; }
      CopiedNothing(buf[..], Value(), store.blocks, offset);
      var startBlock := start / BLOCK_SZ;
      while true
        invariant offset <= start < end && startBlock == start / BLOCK_SZ < DataBlocks(size)
        invariant readSize == start - offset && store.held == old(store.held)
        invariant store.Sound()
        invariant Copied(old(buf[..]), buf[..], 0, d, store.blocks, offset, readSize)
        invariant Walkable(Tree(d, store.blocks), |store.blocks|, store.held)
        decreases end - start
      {
        var endCurrentBlock := PieceEnd(start, end, size);
        var blockReadSize := endCurrentBlock - start;
        ghost var mid := buf[..];
        ReadBlock(startBlock, start, blockReadSize, buf, readSize, store);
        CopiedMore(old(buf[..]), mid, buf[..], d, store.blocks, offset, start, readSize, blockReadSize);
        readSize := readSize + blockReadSize;
        if endCurrentBlock == end { break; }
        startBlock := startBlock + 1;
        start := endCurrentBlock;
      }
    }

    /** One step of a write, within one block. */
    method WriteBlock(startBlock: nat, start: nat, src: seq<u8>, store: BlockStore)
      requires startBlock == start / BLOCK_SZ < DataBlocks(size) <= MAX_BLOCKS && start % BLOCK_SZ + |src| <= BLOCK_SZ
      requires Walkable(Tree(Value(), store.blocks), |store.blocks|, store.held)
      requires store.Sound()
      modifies store
      ensures store.Sound()
      ensures store.held == old(store.held)
      ensures Wrote(Value(), old(store.blocks), store.blocks, start, src)
      ensures Walkable(Tree(Value(), store.blocks), |store.blocks|, store.held)
    {
      WroteBlock(Value(), store.blocks, startBlock, start % BLOCK_SZ, src);
      var id := GetBlockId(startBlock, store);
      var x := store.Fetch(id);
      store.Put(id, WithBytes(x, start % BLOCK_SZ, src));
    }

    /** The next piece of a write that has come as far as `start`. */
    method WriteNext(startBlock: nat, offset: nat, start: nat, buf: seq<u8>, writeSize: nat, blockWriteSize: nat,
        store: BlockStore,
                     ghost before: seq<Block>)
      requires startBlock == start / BLOCK_SZ < DataBlocks(size) <= MAX_BLOCKS
               && start % BLOCK_SZ + blockWriteSize <= BLOCK_SZ
      requires start == offset + writeSize && writeSize + blockWriteSize <= |buf|
      requires Walkable(Tree(Value(), store.blocks), |store.blocks|, store.held)
      requires Wrote(Value(), before, store.blocks, offset, buf[0..writeSize])
      requires store.Sound()
      modifies store
      ensures store.Sound()
      ensures store.held == old(store.held)
      ensures Wrote(Value(), before, store.blocks, offset, buf[0..writeSize + blockWriteSize])
      ensures Walkable(Tree(Value(), store.blocks), |store.blocks|, store.held)
    {
      var src := buf[writeSize..writeSize + blockWriteSize];
      ghost var mid := store.blocks;
      WriteBlock(startBlock, start, src, store);
      WroteMore(Value(), before, mid, store.blocks, offset, start, buf[0..writeSize], src);
      SliceJoin(buf, 0, writeSize, writeSize + blockWriteSize);
    }

    /** Overwrites existing bytes of the file; the size was adjusted beforehand. */
    method WriteAt(offset: nat, buf: seq<u8>, store: BlockStore) returns (writeSize: nat)
      requires DataBlocks(size) <= MAX_BLOCKS
      requires offset <= size && offset / BLOCK_SZ < DataBlocks(size)
      requires Walkable(Tree(Value(), store.blocks), |store.blocks|, store.held)
      requires store.Sound()
      modifies store
      ensures store.Sound()
      ensures store.held == old(store.held)
      ensures writeSize == Min(|buf|, size - offset)
      ensures Wrote(Value(), old(store.blocks), store.blocks, offset, buf[0..writeSize])
    {
      ghost var d := Value();
      WroteNothing(Value(), store.blocks, offset);
      assert buf[0..0] == [];
      writeSize := 0;
      var start := offset;
      var end := Min(offset + |buf|, size);
      var startBlock := start / BLOCK_SZ;
      while true
        invariant offset <= start <= end && startBlock == start / BLOCK_SZ < DataBlocks(size)
        invariant writeSize == start - offset && store.held == old(store.held)
        invariant store.Sound()
        invariant Wrote(d, old(store.blocks), store.blocks, offset, buf[0..writeSize])
        invariant Walkable(Tree(d, store.blocks), |store.blocks|, store.held)
        decreases end - start
      {
        var endCurrentBlock := PieceEnd(start, end, size);
        var blockWriteSize := endCurrentBlock - start;
        WriteNext(startBlock, offset, start, buf, writeSize, blockWriteSize, store, old(store.blocks));
        writeSize := writeSize + blockWriteSize;
        if endCurrentBlock == end { break; }
        startBlock := startBlock + 1;
        start := endCurrentBlock;
      }
    }
  }

  /** Before anything is stored, the tree is a prefix of the one to come. */
  lemma GrowStart(d: Inode, newSize: u32, blocks: seq<Block>, more: seq<u32>)
    ensures Agree(d.(size := newSize), blocks, Tree(d, blocks) + more, |Tree(d, blocks)|)
  {
    forall k | 0 <= k < |Tree(d, blocks)|
      ensures NodeAt(d.(size := newSize), blocks, k) == (Tree(d, blocks) + more)[k]
    {
      assert NodeAt(d.(size := newSize), blocks, k) == NodeAt(d, blocks, k);
    }
  }

  /** The single-indirect part of the tree. */
  lemma IndirectNodes(d: Inode, blocks: seq<Block>)
    requires DIRECT < DataBlocks(d.size) <= MAX_BLOCKS
    requires InRange(Tree(d, blocks), |blocks|)
    ensures var t := Tree(d, blocks);
            var count := Min(DataBlocks(d.size) - DIRECT, PTRS);
            29 + count <= |t| && t[28] == d.indirect1 && t[29..29 + count] == blocks[d.indirect1][..count]
  {
    var t := Tree(d, blocks);
    var count := Min(DataBlocks(d.size) - DIRECT, PTRS);
    TreeSizeMonotone(DIRECT + count, DataBlocks(d.size));
    assert t[28] == NodeAt(d, blocks, 28);
    forall r | 0 <= r < count
      ensures t[29 + r] == blocks[d.indirect1][r]
    {
      assert t[29 + r] == NodeAt(d, blocks, 29 + r);
    }
  }

  /** Row a of the double-indirect part of the tree. */
  lemma RowNodes(d: Inode, blocks: seq<Block>, a: nat)
    requires INDIRECT1_BOUND + a * PTRS < DataBlocks(d.size) <= MAX_BLOCKS
    requires InRange(Tree(d, blocks), |blocks|)
    ensures var t := Tree(d, blocks);
            var row := Min(DataBlocks(d.size) - INDIRECT1_BOUND - a * PTRS, PTRS);
            var k := 158 + 129 * a;
            k + row < |t| && t[157] == d.indirect2 && t[k] == blocks[d.indirect2][a] && a < PTRS
            && t[k + 1..k + 1 + row] == blocks[t[k]][..row]
  {
    var t := Tree(d, blocks);
    var row := Min(DataBlocks(d.size) - INDIRECT1_BOUND - a * PTRS, PTRS);
    var k := 158 + 129 * a;
    TreeSizeMonotone(INDIRECT1_BOUND + a * PTRS + row, DataBlocks(d.size));
    DivMod(k - 158, 129, a, 0);
    assert t[157] == NodeAt(d, blocks, 157) && t[k] == NodeAt(d, blocks, k);
    forall r | 0 <= r < row
      ensures t[k + 1 + r] == blocks[t[k]][r]
    {
      DivMod(k + 1 + r - 158, 129, a, r + 1);
      assert t[k + 1 + r] == NodeAt(d, blocks, k + 1 + r);
    }
  }
}
