/** All inodes of a file system at once: whose block is whose, and what growing, writing and clearing one
    file does to its own content and to everybody else's.

    `owner` maps every allocated data-area block to the inode in whose tree it occurs.
  */
module FileTrees {
  import opened BlockViews
  import opened InodeTree
  import opened DiskInodes
  import opened Sequences

  type Owners = map<u32, nat>

  /** A file in good order: its tree is on the device, no block occurs twice, bytes past its size are zero. */
  ghost predicate FileOk(d: Inode, blocks: seq<Block>) {
    && DataBlocks(d.size) <= MAX_BLOCKS
    && InRange(Tree(d, blocks), |blocks|) && NoDup(Tree(d, blocks))
    && InRange(DataIds(d, blocks), |blocks|)
    && DataBytes(d, blocks)[d.size..] == Zeros(BLOCK_SZ * DataBlocks(d.size) - d.size)
  }

  /** The trees are disjoint and make up exactly the owned blocks, all on the device from `lo` on. */
  ghost predicate Ownership(trees: seq<seq<u32>>, owner: Owners, lo: nat, n: nat) {
    && (forall i, k :: 0 <= i < |trees| && 0 <= k < |trees[i]| ==> trees[i][k] in owner && owner[trees[i][k]] == i)
    && (forall b :: b in owner ==> lo <= b < n && owner[b] < |trees| && b in trees[owner[b]])
  }

  function AllTrees(inodes: seq<Inode>, blocks: seq<Block>): (ts: seq<seq<u32>>)
    ensures |ts| == |inodes|
    ensures forall i :: 0 <= i < |ts| ==> ts[i] == Tree(inodes[i], blocks)
  {
    seq(|inodes|, i requires 0 <= i < |inodes| => Tree(inodes[i], blocks))
  }

  ghost predicate AllOk(inodes: seq<Inode>, blocks: seq<Block>) {
    forall i {:trigger FileOk(inodes[i], blocks)} :: 0 <= i < |inodes| ==> FileOk(inodes[i], blocks)
  }

  /** Every file is in good order and the owners are right. */
  ghost predicate Trees(inodes: seq<Inode>, blocks: seq<Block>, owner: Owners, lo: nat) {
    AllOk(inodes, blocks) && Ownership(AllTrees(inodes, blocks), owner, lo, |blocks|)
  }

  /** `s` filled up with zeros to length n. */
  function Padded(s: seq<u8>, n: nat): (r: seq<u8>)
    ensures |r| == Max(|s|, n)
  {
    if n <= |s| then s else s + Zeros(n - |s|)
  }

  /** The file after `src` was written at `offset`: the gap is zero-filled, the range overwritten. */
  function Written(s: seq<u8>, offset: nat, src: seq<u8>): (r: seq<u8>)
    ensures |r| == Max(|s|, offset + |src|)
    ensures forall j :: 0 <= j < |r| ==>
              r[j] == if offset <= j < offset + |src| then src[j - offset] else if j < |s| then s[j] else 0
  {
    Splice(Padded(s, offset + |src|), offset, src)
  }

  lemma FileFrame(d: Inode, before: seq<Block>, after: seq<Block>)
    requires FileOk(d, before) && |after| == |before|
    requires forall k :: 0 <= k < |Tree(d, before)| ==> after[Tree(d, before)[k]] == before[Tree(d, before)[k]]
    ensures Tree(d, after) == Tree(d, before)
    ensures FileOk(d, after) && Content(d, after) == Content(d, before)
  {
    TreeSizeMonotone(DataBlocks(d.size), MAX_BLOCKS);
    TreeFrame(d, before, after, Tree(d, before));
    DataIdsFromTree(d, before, after);
    DataIdsInTree(d, before);
    FileBytesFrame(before, after, DataIds(d, before));
    DataBytesAre(d, before);
    DataBytesAre(d, after);
  }

  /** Nothing changes for the other files when only blocks of file i, or free blocks, are touched. */
  lemma OthersFrame(inodes: seq<Inode>, before: seq<Block>, after: seq<Block>, owner: Owners, lo: nat, i: nat)
    requires Trees(inodes, before, owner, lo) && |after| == |before|
    requires forall b :: 0 <= b < |before| && b in owner && owner[b] != i ==> after[b] == before[b]
    ensures forall j :: 0 <= j < |inodes| && j != i ==>
              Tree(inodes[j], after) == Tree(inodes[j], before)
              && FileOk(inodes[j], after) && Content(inodes[j], after) == Content(inodes[j], before)
  {
    forall j | 0 <= j < |inodes| && j != i
      ensures Tree(inodes[j], after) == Tree(inodes[j], before)
      ensures FileOk(inodes[j], after) && Content(inodes[j], after) == Content(inodes[j], before)
    {
      FileFrame(inodes[j], before, after);
    }
  }

  // ---- growing ----

  /** What growing file d to d' promises: `more` becomes the rest of the tree, only index blocks change. */
  ghost predicate Grew(d: Inode, before: seq<Block>, d': Inode, after: seq<Block>, more: seq<u32>) {
    && d.size <= d'.size && DataBlocks(d'.size) <= MAX_BLOCKS
    && Tree(d', after) == Tree(d, before) + more
    && NoDup(Tree(d, before) + more) && InRange(Tree(d, before), |before|) && InRange(more, |before|)
    && OnlyIndexChanged(Tree(d', after), before, after)
    && forall k :: 0 <= k < |more| ==> IsZero(before[more[k]])
  }

  lemma GrewBlocks(d: Inode, before: seq<Block>, d': Inode, after: seq<Block>, more: seq<u32>)
    requires Grew(d, before, d', after, more)
    ensures DataBlocks(d.size) <= DataBlocks(d'.size)
    ensures DataIds(d', after)[..DataBlocks(d.size)] == DataIds(d, before)
    ensures forall i :: DataBlocks(d.size) <= i < DataBlocks(d'.size) ==> DataIds(d', after)[i] in more
    ensures forall i :: 0 <= i < DataBlocks(d'.size) ==>
              DataIds(d', after)[i] < |before| && after[DataIds(d', after)[i]] == before[DataIds(d', after)[i]]
  {
    var t', n, n' := Tree(d', after), DataBlocks(d.size), DataBlocks(d'.size);
    DataIdsInTree(d, before);
    DataIdsInTree(d', after);
    forall i | 0 <= i < n'
      ensures DataIds(d', after)[i] < |before| && after[DataIds(d', after)[i]] == before[DataIds(d', after)[i]]
      ensures if i < n then DataIds(d', after)[i] == DataIds(d, before)[i] else DataIds(d', after)[i] in more
    {
      assert DataIds(d', after)[i] == t'[Pos(i)];
      assert !IsIndexNode(t', t'[Pos(i)]);
      PosInTree(i, n);
      if i >= n { assert t'[Pos(i)] == more[Pos(i) - |Tree(d, before)|]; }
    }
  }

  lemma ZeroExtend(before: seq<Block>, after: seq<Block>, ids: seq<u32>, rest: seq<u32>)
    requires InRange(ids, |before|) && InRange(rest, |before|) && |after| == |before|
    requires forall i :: 0 <= i < |ids| ==> after[ids[i]] == before[ids[i]]
    requires forall i :: 0 <= i < |rest| ==> IsZero(after[rest[i]])
    ensures InRange(ids + rest, |after|)
    ensures FileBytes(after, ids + rest) == FileBytes(before, ids) + Zeros(BLOCK_SZ * |rest|)
  {
    FileBytesAppend(after, ids, rest);
    FileBytesFrame(before, after, ids);
    forall i | 0 <= i < |rest|
      ensures AsBytes(after[rest[i]]) == Zeros(BLOCK_SZ)
    {
      ZeroBlockViews(after[rest[i]]);
    }
    FileBytesZero(after, rest);
  }

  /** The data blocks after growing: the old ones, untouched, and then zero blocks. */
  lemma GrewRest(d: Inode, before: seq<Block>, d': Inode, after: seq<Block>, more: seq<u32>) returns (rest: seq<u32>)
    requires Grew(d, before, d', after, more)
    ensures DataIds(d', after) == DataIds(d, before) + rest && InRange(rest, |before|)
    ensures forall i :: 0 <= i < |rest| ==> IsZero(after[rest[i]])
    ensures InRange(DataIds(d, before), |before|)
    ensures forall i :: 0 <= i < |DataIds(d, before)| ==> after[DataIds(d, before)[i]] == before[DataIds(d, before)[i]]
  {
    GrewBlocks(d, before, d', after, more);
    var ids, ids' := DataIds(d, before), DataIds(d', after);
    rest := ids'[|ids|..];
    forall i | 0 <= i < |rest|
      ensures rest[i] < |after| && IsZero(after[rest[i]])
    {
      assert rest[i] == ids'[|ids| + i] && rest[i] in more;
    }
    forall i | 0 <= i < |ids|
      ensures ids[i] < |before| && after[ids[i]] == before[ids[i]]
    {
      assert ids'[..|ids|][i] == ids'[i];
    }
  }

  lemma GrewFile(d: Inode, before: seq<Block>, d': Inode, after: seq<Block>, more: seq<u32>)
    requires Grew(d, before, d', after, more) && FileOk(d, before)
    ensures FileOk(d', after)
    ensures Content(d', after) == Padded(Content(d, before), d'.size)
  {
    var rest := GrewRest(d, before, d', after, more);
    ZeroExtend(before, after, DataIds(d, before), rest);
    ZeroTail(DataBytes(d, before), BLOCK_SZ * |rest|, d.size, d'.size);
    InRangeConcat(Tree(d, before), more, |before|);
    DataBytesAre(d, before);
    DataBytesAre(d', after);
  }

  lemma InRangeConcat(s: seq<u32>, t: seq<u32>, n: nat)
    requires InRange(s, n) && InRange(t, n)
    ensures InRange(s + t, n)
  {
  }

  lemma ZeroTail(s: seq<u8>, n: nat, a: nat, b: nat)
    requires a <= |s| && a <= b <= |s| + n && s[a..] == Zeros(|s| - a)
    ensures (s + Zeros(n))[b..] == Zeros(|s| + n - b)
    ensures (s + Zeros(n))[..b] == Padded(s[..a], b)
  {
    var t := s + Zeros(n);
    assert t[a..] == s[a..] + Zeros(n);
    assert forall j :: a <= j < |t| ==> t[j] == t[a..][j - a] == 0;
  }

  /** The blocks `more` now belong to file i. */
  function Adopted(owner: Owners, more: seq<u32>, i: nat): Owners {
    owner + (map b | b in more :: i)
  }

  lemma AdoptOwnership(trees: seq<seq<u32>>, owner: Owners, lo: nat, n: nat, i: nat, more: seq<u32>)
    requires Ownership(trees, owner, lo, n) && i < |trees|
    requires forall k :: 0 <= k < |more| ==> lo <= more[k] < n && more[k] !in owner
    ensures Ownership(trees[i := trees[i] + more], Adopted(owner, more, i), lo, n)
  {
    var trees', owner' := trees[i := trees[i] + more], Adopted(owner, more, i);
    forall b | b in owner'
      ensures lo <= b < n && owner'[b] < |trees'| && b in trees'[owner'[b]]
    {
      if b in more {
        assert owner'[b] == i;
      } else {
        assert b in owner && owner'[b] == owner[b] && b in trees[owner[b]];
      }
    }
    forall j, k | 0 <= j < |trees'| && 0 <= k < |trees'[j]|
      ensures trees'[j][k] in owner' && owner'[trees'[j][k]] == j
    {
      if j == i && k >= |trees[i]| {
        assert trees'[j][k] == more[k - |trees[i]|];
      } else {
        assert trees'[j][k] == trees[j][k] && trees[j][k] in owner;
        assert trees[j][k] !in more;
      }
    }
  }

  /** Blocks of other files are neither old nor new index blocks of file i. */
  lemma GrowSpares(trees: seq<seq<u32>>, owner: Owners, lo: nat, n: nat, i: nat, more: seq<u32>, b: u32)
    requires Ownership(trees, owner, lo, n) && i < |trees|
    requires forall k :: 0 <= k < |more| ==> more[k] !in owner
    requires b in owner && owner[b] != i
    ensures !IsIndexNode(trees[i] + more, b)
  {
    var full := trees[i] + more;
    forall k | 0 <= k < |full|
      ensures full[k] != b
    {
      assert full[k] == if k < |trees[i]| then trees[i][k] else more[k - |trees[i]|];
    }
  }

  lemma GrowTrees(inodes: seq<Inode>, before: seq<Block>, owner: Owners, lo: nat, i: nat,
                  d': Inode, after: seq<Block>, more: seq<u32>)
    requires Trees(inodes, before, owner, lo) && i < |inodes|
    requires Grew(inodes[i], before, d', after, more)
    requires forall k :: 0 <= k < |more| ==> lo <= more[k] && more[k] !in owner
    ensures Trees(inodes[i := d'], after, Adopted(owner, more, i), lo)
    ensures Content(d', after) == Padded(Content(inodes[i], before), d'.size)
    ensures forall j :: 0 <= j < |inodes| && j != i ==> Content(inodes[j], after) == Content(inodes[j], before)
  {
    var trees := AllTrees(inodes, before);
    GrewFile(inodes[i], before, d', after, more);
    forall b | 0 <= b < |before| && b in owner && owner[b] != i
      ensures after[b] == before[b]
    {
      GrowSpares(trees, owner, lo, |before|, i, more, b);
    }
    OthersFrame(inodes, before, after, owner, lo, i);
    assert AllTrees(inodes[i := d'], after) == trees[i := trees[i] + more];
    AdoptOwnership(trees, owner, lo, |before|, i, more);
  }

  // ---- writing ----

  lemma WroteFile(d: Inode, before: seq<Block>, after: seq<Block>, start: nat, src: seq<u8>)
    requires FileOk(d, before) && Wrote(d, before, after, start, src) && start + |src| <= d.size
    ensures FileOk(d, after)
    ensures Content(d, after) == Splice(Content(d, before), start, src)
  {
    DataIdsFromTree(d, before, after);
    SpliceCut(DataBytes(d, before), start, src, d.size);
  }

  lemma SpliceCut(s: seq<u8>, at: nat, t: seq<u8>, n: nat)
    requires at + |t| <= n <= |s|
    ensures Splice(s, at, t)[..n] == Splice(s[..n], at, t) && Splice(s, at, t)[n..] == s[n..]
  {
  }

  lemma WriteTrees(inodes: seq<Inode>, before: seq<Block>, owner: Owners, lo: nat, i: nat, after: seq<Block>,
                   start: nat, src: seq<u8>)
    requires Trees(inodes, before, owner, lo) && i < |inodes|
    requires Wrote(inodes[i], before, after, start, src) && start + |src| <= inodes[i].size
    ensures Trees(inodes, after, owner, lo)
    ensures Content(inodes[i], after) == Splice(Content(inodes[i], before), start, src)
    ensures forall j :: 0 <= j < |inodes| && j != i ==> Content(inodes[j], after) == Content(inodes[j], before)
  {
    var trees := AllTrees(inodes, before);
    WroteFile(inodes[i], before, after, start, src);
    forall b | 0 <= b < |before| && b in owner && owner[b] != i
      ensures after[b] == before[b]
    {
      WriteSpares(trees, owner, lo, |before|, i, b);
    }
    OthersFrame(inodes, before, after, owner, lo, i);
    assert AllTrees(inodes, after) == trees;
  }

  lemma WriteSpares(trees: seq<seq<u32>>, owner: Owners, lo: nat, n: nat, i: nat, b: u32)
    requires Ownership(trees, owner, lo, n) && i < |trees|
    requires b in owner && owner[b] != i
    ensures !IsDataNode(trees[i], b)
  {
  }

  // ---- clearing ----

  /** The blocks of all files but i. */
  function Disowned(owner: Owners, i: nat): Owners {
    map b | b in owner && owner[b] != i :: owner[b]
  }

  lemma DisownOwnership(trees: seq<seq<u32>>, owner: Owners, lo: nat, n: nat, i: nat)
    requires Ownership(trees, owner, lo, n) && i < |trees|
    ensures Ownership(trees[i := []], Disowned(owner, i), lo, n)
  {
  }

  lemma ClearTrees(inodes: seq<Inode>, blocks: seq<Block>, owner: Owners, lo: nat, i: nat, d': Inode)
    requires Trees(inodes, blocks, owner, lo) && i < |inodes| && d'.size == 0
    ensures Trees(inodes[i := d'], blocks, Disowned(owner, i), lo)
    ensures Content(d', blocks) == []
  {
    assert Tree(d', blocks) == [] && DataIds(d', blocks) == [];
    assert AllTrees(inodes[i := d'], blocks) == AllTrees(inodes, blocks)[i := []];
    DisownOwnership(AllTrees(inodes, blocks), owner, lo, |blocks|, i);
  }
}
