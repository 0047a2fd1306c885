/** The block tree of an inode: 28 direct blocks, one single-indirect and one double-indirect block.

    The blocks of a tree are numbered in one fixed order, `NodeAt(d, blocks, 0)`, `NodeAt(d, blocks, 1)`, ...:
    direct blocks, the single-indirect block and what it points to, the double-indirect block and then each
    second-level block followed by what it points to. A file with n data blocks owns exactly the first
    `TreeSize(n)` nodes, so growing a file appends nodes and never moves one.
  */
module InodeTree {
  import opened BlockViews
  import opened Sequences

  const INDIRECT1_BOUND: nat := DIRECT + PTRS
  const MAX_BLOCKS: nat := DIRECT + PTRS + PTRS * PTRS

  function Min(a: nat, b: nat): nat { if a < b then a else b }

  function Max(a: nat, b: nat): nat { if a < b then b else a }

  function DivCeil(a: nat, b: nat): nat
    requires b > 0
  {
    (a + b - 1) / b
  }

  function DataBlocks(size: nat): nat { DivCeil(size, BLOCK_SZ) }

  /** Blocks in the tree of a file with n data blocks, index blocks included. */
  function TreeSize(n: nat): nat {
    n + (if n > DIRECT then 1 else 0)
      + (if n > INDIRECT1_BOUND then 1 + DivCeil(n - INDIRECT1_BOUND, PTRS) else 0)
  }

  function TotalBlocks(size: nat): nat { TreeSize(DataBlocks(size)) }

  function Ptr(blocks: seq<Block>, id: nat, k: nat): u32 {
    if id < |blocks| && k < PTRS then blocks[id][k] else 0
  }

  /** The k-th block of the tree. */
  function NodeAt(d: Inode, blocks: seq<Block>, k: nat): u32 {
    if k < 28 then d.direct[k]
    else if k == 28 then d.indirect1
    else if k < 157 then Ptr(blocks, d.indirect1, k - 29)
    else if k == 157 then d.indirect2
    else
      var sub := Ptr(blocks, d.indirect2, (k - 158) / 129);
      if (k - 158) % 129 == 0 then sub else Ptr(blocks, sub, (k - 158) % 129 - 1)
  }

  /** Index blocks hold block numbers; the other nodes hold file contents. */
  predicate IsIndex(k: nat) { k == 28 || k == 157 || (k >= 158 && (k - 158) % 129 == 0) }

  /** The nodes from number k on, n in all. */
  function Nodes(d: Inode, blocks: seq<Block>, k: nat, n: nat): (t: seq<u32>)
    ensures |t| == n
    ensures forall j {:trigger NodeAt(d, blocks, j)} :: k <= j < k + n ==> t[j - k] == NodeAt(d, blocks, j)
    decreases n
  {
    if n == 0 then [] else [NodeAt(d, blocks, k)] + Nodes(d, blocks, k + 1, n - 1)
  }

  function Tree(d: Inode, blocks: seq<Block>): (t: seq<u32>)
    ensures |t| == TotalBlocks(d.size)
    ensures forall k {:trigger NodeAt(d, blocks, k)} :: 0 <= k < |t| ==> t[k] == NodeAt(d, blocks, k)
  {
    Nodes(d, blocks, 0, TotalBlocks(d.size))
  }

  /** Where data block i sits in the tree. */
  function Pos(i: nat): nat {
    if i < DIRECT then i
    else if i < INDIRECT1_BOUND then i + 1
    else 159 + (i - INDIRECT1_BOUND) / PTRS * 129 + (i - INDIRECT1_BOUND) % PTRS
  }

  /** The inverse of `Pos`: which data block a non-index node is. */
  function DataIndex(k: nat): nat
    requires !IsIndex(k)
  {
    if k < 28 then k
    else if k < 157 then k - 1
    else INDIRECT1_BOUND + (k - 158) / 129 * 128 + (k - 158) % 129 - 1
  }

  lemma PosLast(i: nat)
    ensures Pos(i) == TreeSize(i + 1) - 1
    ensures !IsIndex(Pos(i)) && DataIndex(Pos(i)) == i
  {
    if i >= INDIRECT1_BOUND {
      var a, r := (i - INDIRECT1_BOUND) / 128, (i - INDIRECT1_BOUND) % 128;
      assert (i + 1 - INDIRECT1_BOUND + 127) / 128 == a + 1;
      assert Pos(i) - 158 == 129 * a + (r + 1);
      DivMod(Pos(i) - 158, 129, a, r + 1);
    }
  }

  lemma DivMod(x: int, m: nat, q: int, r: int)
    requires (m == 128 || m == 129) && x == m * q + r && 0 <= r < m
    ensures x / m == q && x % m == r
  {
    if m == 128 { assert x == 128 * q + r; } else { assert x == 129 * q + r; }
  }

  lemma TreeSizeMonotone(m: nat, n: nat)
    requires m <= n
    ensures n - m <= TreeSize(n) - TreeSize(m)
  {
    if m > INDIRECT1_BOUND {
      assert (m - INDIRECT1_BOUND + 127) / 128 <= (n - INDIRECT1_BOUND + 127) / 128;
    }
  }

  lemma PosInjective(i: nat, j: nat)
    requires i < j
    ensures Pos(i) < Pos(j)
  {
    PosLast(i);
    PosLast(j);
    TreeSizeMonotone(i + 1, j + 1);
  }

  lemma PosInTree(i: nat, n: nat)
    ensures i < n <==> Pos(i) < TreeSize(n)
  {
    PosLast(i);
    if i < n { TreeSizeMonotone(i + 1, n); } else { TreeSizeMonotone(n, i); PosLast(i); TreeSizeMonotone(i, i + 1); }
  }

  // ---- writing one node ----

  predicate InRange(s: seq<u32>, n: nat) { forall i :: 0 <= i < |s| ==> s[i] < n }

  ghost predicate Agree(d: Inode, blocks: seq<Block>, full: seq<u32>, k: nat)
    requires k <= |full|
  {
    forall i :: 0 <= i < k ==> NodeAt(d, blocks, i) == full[i]
  }

  function SetPtr(blocks: seq<Block>, id: nat, k: nat, v: u32): (r: seq<Block>)
    requires id < |blocks| && k < PTRS
  {
    blocks[id := blocks[id][k := v]]
  }

  lemma PtrAfterSet(blocks: seq<Block>, id: nat, k: nat, v: u32)
    requires id < |blocks| && k < PTRS
    ensures forall i: nat, j: nat ::
              Ptr(SetPtr(blocks, id, k, v), i, j) == if i == id && j == k then v else Ptr(blocks, i, j)
  {
  }

  function Holder(d: Inode, blocks: seq<Block>, k: nat): nat
    requires k >= 29 && k != 157
  {
    if k < 157 then d.indirect1
    else if (k - 158) % 129 == 0 then d.indirect2
    else Ptr(blocks, d.indirect2, (k - 158) / 129)
  }

  function Slot(k: nat): (s: nat)
    requires 29 <= k < TreeSize(MAX_BLOCKS) && k != 157
    ensures s < PTRS
  {
    if k < 157 then k - 29 else if (k - 158) % 129 == 0 then (k - 158) / 129 else (k - 158) % 129 - 1
  }

  /** Storing `v` as node k: in the inode record itself or in the index block that holds it. */
  function SetNodeInode(d: Inode, k: nat, v: u32): Inode {
    if k < 28 then d.(direct := d.direct[k := v])
    else if k == 28 then d.(indirect1 := v)
    else if k == 157 then d.(indirect2 := v)
    else d
  }

  function SetNodeBlocks(d: Inode, blocks: seq<Block>, k: nat, v: u32): seq<Block>
    requires k < TreeSize(MAX_BLOCKS)
    requires k >= 29 && k != 157 ==> Holder(d, blocks, k) < |blocks|
  {
    if k >= 29 && k != 157 then SetPtr(blocks, Holder(d, blocks, k), Slot(k), v) else blocks
  }

  /** The index blocks of a tree whose first |full| nodes are `full`. */
  ghost predicate IsIndexNode(full: seq<u32>, b: nat) {
    exists k :: 0 <= k < |full| && IsIndex(k) && full[k] == b
  }

  ghost predicate OnlyIndexChanged(full: seq<u32>, before: seq<Block>, after: seq<Block>) {
    |after| == |before| &&
    forall b :: 0 <= b < |before| && !IsIndexNode(full, b) ==> after[b] == before[b]
  }

  lemma HolderIsIndexNode(d: Inode, blocks: seq<Block>, full: seq<u32>, k: nat)
    requires 29 <= k < |full| && k != 157
    requires Agree(d, blocks, full, k)
    ensures IsIndexNode(full, Holder(d, blocks, k))
  {
    var p: nat := if k < 157 then 28 else if (k - 158) % 129 == 0 then 157 else k - (k - 158) % 129;
    if k >= 158 && p != 157 {
      DivMod(p - 158, 129, (k - 158) / 129, 0);
    }
    assert NodeAt(d, blocks, p) == full[p];
  }

  /** Storing the k-th node where the first k nodes are already in place keeps those and adds it. */
  lemma SetNodeAgree(d: Inode, blocks: seq<Block>, full: seq<u32>, k: nat)
    requires NoDup(full) && InRange(full, |blocks|)
    requires k < |full| <= TreeSize(MAX_BLOCKS)
    requires Agree(d, blocks, full, k)
    ensures k >= 29 && k != 157 ==> Holder(d, blocks, k) < |blocks|
    ensures var d' := SetNodeInode(d, k, full[k]);
            var blocks' := SetNodeBlocks(d, blocks, k, full[k]);
            Agree(d', blocks', full, k + 1) && OnlyIndexChanged(full, blocks, blocks')
  {
    if k >= 29 && k != 157 {
      HolderIsIndexNode(d, blocks, full, k);
    }
    var d' := SetNodeInode(d, k, full[k]);
    var blocks' := SetNodeBlocks(d, blocks, k, full[k]);
    forall i | 0 <= i < k + 1
      ensures NodeAt(d', blocks', i) == full[i]
    {
      SetNodeAt(d, blocks, full, k, i);
    }
  }

  lemma SetNodeAt(d: Inode, blocks: seq<Block>, full: seq<u32>, k: nat, i: nat)
    requires NoDup(full) && InRange(full, |blocks|)
    requires i <= k < |full| <= TreeSize(MAX_BLOCKS)
    requires Agree(d, blocks, full, k)
    requires k >= 29 && k != 157 ==> Holder(d, blocks, k) < |blocks|
    ensures NodeAt(SetNodeInode(d, k, full[k]), SetNodeBlocks(d, blocks, k, full[k]), i) == full[i]
  {
    assert i < k ==> NodeAt(d, blocks, i) == full[i];
    if k >= 29 && k != 157 {
      PtrAfterSet(blocks, Holder(d, blocks, k), Slot(k), full[k]);
      assert NodeAt(d, blocks, 28) == full[28];
      if k >= 158 {
        assert NodeAt(d, blocks, 157) == full[157];
        SubNode(d, blocks, full, k);
        if i >= 158 { SubNode(d, blocks, full, i); }
      }
    }
  }

  /** The second-level block above node k is itself an earlier node. */
  lemma SubNode(d: Inode, blocks: seq<Block>, full: seq<u32>, k: nat)
    requires 158 <= k < |full| && Agree(d, blocks, full, k)
    ensures var p := 158 + 129 * ((k - 158) / 129);
            p <= k && IsIndex(p) && (p == k <==> (k - 158) % 129 == 0) &&
            (p < k ==> Ptr(blocks, d.indirect2, (k - 158) / 129) == full[p])
  {
    var p := 158 + 129 * ((k - 158) / 129);
    DivMod(p - 158, 129, (k - 158) / 129, 0);
    assert p < k ==> NodeAt(d, blocks, p) == full[p];
  }
}
