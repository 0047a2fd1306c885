/** Allocation bitmaps: one bit per resource, scanned word by word for the first clear bit. */
module Bitmaps {
  import opened BlockViews
  import opened BlockStorage
  import opened Options

  const BLOCK_BITS: nat := 4096  // BLOCK_SZ * 8
  const U64_MAX: u64 := 0xFFFF_FFFF_FFFF_FFFF

  // ---- one 64-bit word ----

  /** Bit i of a word. */
  predicate Bit(w: nat, i: nat) {
    if i == 0 then w % 2 == 1 else Bit(w / 2, i - 1)
  }

  function Pow2(i: nat): (r: nat)
    ensures r >= 1
  {
    if i == 0 then 1 else 2 * Pow2(i - 1)
  }

  /** `w | (1 << i)` */
  function OrBit(w: nat, i: nat): nat {
    if i == 0 then w / 2 * 2 + 1 else 2 * OrBit(w / 2, i - 1) + w % 2
  }

  /** How many consecutive ones the word ends in. */
  function TrailingOnes(w: nat): nat {
    if w % 2 == 0 then 0 else 1 + TrailingOnes(w / 2)
  }

  lemma {:induction false} OrBitSets(w: nat, i: nat, j: nat)
    ensures Bit(OrBit(w, i), j) <==> (i == j || Bit(w, j))
  {
    var r := OrBit(w, i);
    if i == 0 {
      assert r / 2 == w / 2 && r % 2 == 1;
    } else {
      assert r / 2 == OrBit(w / 2, i - 1) && r % 2 == w % 2;
      if j > 0 { OrBitSets(w / 2, i - 1, j - 1); }
    }
  }

  lemma {:induction false} OrBitBound(w: nat, i: nat, n: nat)
    requires i < n && w < Pow2(n)
    ensures OrBit(w, i) < Pow2(n)
  {
    assert w / 2 < Pow2(n - 1);
    if i > 0 { OrBitBound(w / 2, i - 1, n - 1); }
  }

  /** `w - (1 << i)` clears bit i of a word that has it set. */
  lemma {:induction false} SubtractClears(w: nat, i: nat, j: nat)
    requires Bit(w, i)
    ensures Pow2(i) <= w
    ensures Bit(w - Pow2(i), j) <==> (i != j && Bit(w, j))
  {
    if i == 0 {
      assert (w - 1) / 2 == w / 2 && (w - 1) % 2 == 0;
    } else {
      SubtractClears(w / 2, i - 1, if j > 0 then j - 1 else 0);
      var r := w - Pow2(i);
      assert r / 2 == w / 2 - Pow2(i - 1) && r % 2 == w % 2;
    }
  }

  lemma {:induction false} TrailingOnesFirstClear(w: nat, n: nat)
    requires w < Pow2(n) - 1
    ensures TrailingOnes(w) < n && !Bit(w, TrailingOnes(w))
    ensures forall i :: 0 <= i < TrailingOnes(w) ==> Bit(w, i)
  {
    if w % 2 == 1 {
      TrailingOnesFirstClear(w / 2, n - 1);
      forall i | 0 <= i < TrailingOnes(w)
        ensures Bit(w, i)
      {
        if i > 0 { assert Bit(w / 2, i - 1); }
      }
    }
  }

  lemma {:induction false} AllOnes(n: nat, i: nat)
    requires i < n
    ensures Bit(Pow2(n) - 1, i)
  {
    assert (Pow2(n) - 1) / 2 == Pow2(n - 1) - 1;
    if i > 0 { AllOnes(n - 1, i - 1); }
  }

  lemma Pow2Of64(n: nat)
    requires n == 64
    ensures Pow2(n) == U64_MAX + 1
  {
    calc {
      Pow2(n);
      { Pow2Plus16(n - 16); }
      0x1_0000 * Pow2(n - 16);
      { Pow2Plus16(n - 32); }
      0x1_0000_0000 * Pow2(n - 32);
      { Pow2Plus16(n - 48); }
      0x1_0000_0000_0000 * Pow2(n - 48);
      { Pow2Plus16(n - 64); }
      0x1_0000_0000_0000_0000;
    }
  }

  lemma Pow2Plus4(i: nat)
    ensures Pow2(i + 4) == 16 * Pow2(i)
  {
    assert Pow2(i + 4) == 2 * Pow2(i + 3);
    assert Pow2(i + 2) == 2 * Pow2(i + 1);
  }

  lemma Pow2Plus16(i: nat)
    ensures Pow2(i + 16) == 0x1_0000 * Pow2(i)
  {
    Pow2Plus4(i);
    Pow2Plus4(i + 4);
    Pow2Plus4(i + 8);
    Pow2Plus4(i + 12);
  }

  // ---- one bitmap block ----

  /** Bits are counted through the words of a block, starting at word k. */
  predicate WordsBit(b: Block, k: nat, bit: nat)
    requires bit < 64 * (64 - k)
    decreases bit
  {
    if bit < 64 then Bit(LongIn(b, k), bit) else WordsBit(b, k + 1, bit - 64)
  }

  predicate BlockBit(b: Block, bit: nat)
    requires bit < BLOCK_BITS
  {
    WordsBit(b, 0, bit)
  }

  /** ... and through the blocks of a bitmap, starting at block s. */
  predicate BlocksBit(disk: seq<Block>, s: nat, bit: nat)
    requires bit < BLOCK_BITS * (|disk| - s)
    decreases bit
  {
    if bit < BLOCK_BITS then BlockBit(disk[s], bit) else BlocksBit(disk, s + 1, bit - BLOCK_BITS)
  }

  lemma {:induction false} WordsBitAt(b: Block, k: nat, bit: nat)
    requires bit < 64 * (64 - k)
    decreases bit
    ensures k + bit / 64 < 64 && (WordsBit(b, k, bit) <==> Bit(LongIn(b, k + bit / 64), bit % 64))
  {
    if bit >= 64 {
      WordsBitAt(b, k + 1, bit - 64);
      assert (bit - 64) / 64 == bit / 64 - 1 && (bit - 64) % 64 == bit % 64;
    }
  }

  lemma {:induction false} BlocksBitAt(disk: seq<Block>, s: nat, bit: nat)
    requires bit < BLOCK_BITS * (|disk| - s)
    decreases bit
    ensures s + bit / BLOCK_BITS < |disk| && (BlocksBit(disk, s, bit) <==>
              BlockBit(disk[s + bit / BLOCK_BITS], bit % BLOCK_BITS))
  {
    if bit >= BLOCK_BITS {
      BlocksBitAt(disk, s + 1, bit - BLOCK_BITS);
      assert (bit - BLOCK_BITS) / BLOCK_BITS == bit / BLOCK_BITS - 1
        && (bit - BLOCK_BITS) % BLOCK_BITS == bit % BLOCK_BITS;
    }
  }

  /** The lowest n bits of a word are set. */
  ghost predicate LowBitsSet(w: u64, n: nat) { forall i :: 0 <= i < n ==> Bit(w, i) }

  /** The first n words of a bitmap block are full. */
  ghost predicate LowWordsFull(b: Block, n: nat)
    requires n <= 64
  {
    forall k :: 0 <= k < n ==> LongIn(b, k) == U64_MAX
  }

  lemma FullWord(w: u64)
    ensures w == U64_MAX ==> LowBitsSet(w, 64)
    ensures w != U64_MAX ==> TrailingOnes(w) < 64 && !Bit(w, TrailingOnes(w)) && LowBitsSet(w, TrailingOnes(w))
  {
    Pow2Of64(64);
    if w == U64_MAX {
      forall i | 0 <= i < 64 ensures Bit(w, i) { AllOnes(64, i); }
    } else {
      TrailingOnesFirstClear(w, 64);
    }
  }

  /** Storing a word with one more bit, or one bit less, changes that bit only. */
  lemma SetBlockBit(b: Block, k: nat, i: nat, bit: nat)
    requires k < 64 && i < 64 && bit < BLOCK_BITS
    ensures OrBit(LongIn(b, k), i) <= U64_MAX
    ensures BlockBit(WithLong(b, k, OrBit(LongIn(b, k), i)), bit) <==> (bit == 64 * k + i || BlockBit(b, bit))
  {
    Pow2Of64(64);
    OrBitBound(LongIn(b, k), i, 64);
    OrBitSets(LongIn(b, k), i, bit % 64);
    WordsBitAt(b, 0, bit);
    WordsBitAt(WithLong(b, k, OrBit(LongIn(b, k), i)), 0, bit);
  }

  lemma ClearBlockBit(b: Block, k: nat, i: nat, bit: nat)
    requires k < 64 && i < 64 && bit < BLOCK_BITS && Bit(LongIn(b, k), i)
    ensures Pow2(i) <= LongIn(b, k)
    ensures BlockBit(WithLong(b, k, LongIn(b, k) - Pow2(i)), bit) <==> (bit != 64 * k + i && BlockBit(b, bit))
  {
    SubtractClears(LongIn(b, k), i, bit % 64);
    WordsBitAt(b, 0, bit);
    WordsBitAt(WithLong(b, k, LongIn(b, k) - Pow2(i)), 0, bit);
  }

  // ---- the bitmap ----

  datatype Bitmap = Bitmap(start: nat, blocks: nat) {

    function Maximum(): nat { blocks * BLOCK_BITS }

    /** Bit `bit` of the bitmap stored in blocks start, start + 1, ... */
    predicate IsSet(disk: seq<Block>, bit: nat)
      requires start + blocks <= |disk| && bit < Maximum()
    {
      BlocksBit(disk, start, bit)
    }

    lemma IsSetAt(disk: seq<Block>, bit: nat)
      requires start + blocks <= |disk| && bit < Maximum()
      ensures bit / BLOCK_BITS < blocks
      ensures IsSet(disk, bit) <==> BlockBit(disk[start + bit / BLOCK_BITS], bit % BLOCK_BITS)
    {
      BlocksBitAt(disk, start, bit);
      BitInRange(bit, blocks);
    }

    /** The first n bits are set. */
    ghost predicate SetBelow(disk: seq<Block>, n: nat)
      requires start + blocks <= |disk|
    {
      n <= Maximum() && forall q :: 0 <= q < n ==> IsSet(disk, q)
    }

    ghost predicate OnlyBitmapChanged(before: seq<Block>, after: seq<Block>) {
      |after| == |before| &&
      forall b :: 0 <= b < |before| && !(start <= b < start + blocks) ==> after[b] == before[b]
    }

    /** Takes the lowest clear bit, or reports that every bit is set. */
    method Alloc(store: BlockStore) returns (pos: Option<nat>)
      requires start + blocks <= |store.blocks| && |store.held| < MAX_HELD
      requires forall k :: 0 <= k < |store.held| ==> !(start <= store.held[k] < start + blocks)
      requires store.Sound()
      modifies store
      ensures store.Sound()
      ensures store.held == old(store.held) && |store.blocks| == |old(store.blocks)|
      ensures pos.None? ==> store.blocks == old(store.blocks) && SetBelow(store.blocks, Maximum())
      ensures pos.Some? ==>
                && pos.value < Maximum() && !IsSet(old(store.blocks), pos.value)
                && SetBelow(old(store.blocks), pos.value)
                && (forall q :: 0 <= q < Maximum() ==> (IsSet(store.blocks, q) <==>
                     q == pos.value || IsSet(old(store.blocks), q)))
                && OnlyBitmapChanged(old(store.blocks), store.blocks)
    {
      for blockId := 0 to blocks
        invariant store.held == old(store.held) && store.blocks == old(store.blocks)
        invariant store.Sound()
        invariant SetBelow(store.blocks, blockId * BLOCK_BITS)
      {
        store.Lock(blockId + start);
        var b := store.Read(blockId + start);
        var k := FindWord(b);
        if k < 64 {
          var i := TrailingOnes(LongIn(b, k));
          FullWord(LongIn(b, k));
          SetBlockBit(b, k, i, 0);
          store.Write(blockId + start, WithLong(b, k, OrBit(LongIn(b, k), i)));
          store.Unlock();
          pos := Some(blockId * BLOCK_BITS + k * 64 + i);
          AllocEffect(old(store.blocks), store.blocks, blockId, k, i);
          return;
        }
        store.Unlock();
        FullBlock(store.blocks, blockId);
      }
      pos := None;
    }

    /** Clears a bit that must be set. */
    method Dealloc(bit: nat, store: BlockStore)
      requires start + blocks <= |store.blocks| && |store.held| < MAX_HELD
      requires forall k :: 0 <= k < |store.held| ==> !(start <= store.held[k] < start + blocks)
      requires bit < Maximum() && IsSet(store.blocks, bit)
      requires store.Sound()
      modifies store
      ensures store.Sound()
      ensures store.held == old(store.held)
      ensures OnlyBitmapChanged(old(store.blocks), store.blocks)
      ensures forall q :: 0 <= q < Maximum() ==> (IsSet(store.blocks, q) <==> q != bit && IsSet(old(store.blocks), q))
    {
      var (blockPos, bits64Pos, innerPos) := Decomposition(bit);
      IsSetAt(store.blocks, bit);
      var b := store.Fetch(blockPos + start);
      WordsBitAt(b, 0, bit % BLOCK_BITS);
      ClearBlockBit(b, bits64Pos, innerPos, 0);
      store.Put(blockPos + start, WithLong(b, bits64Pos, LongIn(b, bits64Pos) - Pow2(innerPos)));
      forall q | 0 <= q < Maximum()
        ensures IsSet(store.blocks, q) <==> q != bit && IsSet(old(store.blocks), q)
      {
        IsSetAt(old(store.blocks), q);
        IsSetAt(store.blocks, q);
        ClearBlockBit(b, bits64Pos, innerPos, q % BLOCK_BITS);
      }
    }

    lemma FullBlock(disk: seq<Block>, blockId: nat)
      requires start + blocks <= |disk| && blockId < blocks
      requires SetBelow(disk, blockId * BLOCK_BITS)
      requires LowWordsFull(disk[start + blockId], 64)
      ensures SetBelow(disk, (blockId + 1) * BLOCK_BITS)
    {
      forall q | blockId * BLOCK_BITS <= q < (blockId + 1) * BLOCK_BITS
        ensures IsSet(disk, q)
      {
        BitIn(q, blockId);
        IsSetAt(disk, q);
        WordsBitAt(disk[start + blockId], 0, q % BLOCK_BITS);
        FullWord(LongIn(disk[start + blockId], q % BLOCK_BITS / 64));
      }
    }

    lemma AllocEffect(before: seq<Block>, after: seq<Block>, blockId: nat, k: nat, i: nat)
      requires start + blocks <= |before| && blockId < blocks && k < 64 && i < 64
      requires OrBit(LongIn(before[start + blockId], k), i) <= U64_MAX
      requires after == before[start + blockId := WithLong(before[start + blockId], k,
                 OrBit(LongIn(before[start + blockId], k), i))]
      requires SetBelow(before, blockId * BLOCK_BITS)
      requires LowWordsFull(before[start + blockId], k)
      requires !Bit(LongIn(before[start + blockId], k), i) && LowBitsSet(LongIn(before[start + blockId], k), i)
      ensures var p := blockId * BLOCK_BITS + k * 64 + i;
              && p < Maximum() && !IsSet(before, p)
              && SetBelow(before, p)
              && (forall q :: 0 <= q < Maximum() ==> (IsSet(after, q) <==> q == p || IsSet(before, q)))
    {
      var p := blockId * BLOCK_BITS + k * 64 + i;
      var b := before[start + blockId];
      BitIn(p, blockId);
      IsSetAt(before, p);
      WordsBitAt(b, 0, p % BLOCK_BITS);
      forall q | 0 <= q < p
        ensures IsSet(before, q)
      {
        if q >= blockId * BLOCK_BITS {
          BitIn(q, blockId);
          IsSetAt(before, q);
          WordsBitAt(b, 0, q % BLOCK_BITS);
          FullWord(LongIn(b, q % BLOCK_BITS / 64));
        }
      }
      forall q | 0 <= q < Maximum()
        ensures IsSet(after, q) <==> q == p || IsSet(before, q)
      {
        IsSetAt(before, q);
        IsSetAt(after, q);
        SetBlockBit(b, k, i, q % BLOCK_BITS);
      }
    }
  }

  /** The first word of a bitmap block that is not full, or 64. */
  method FindWord(b: Block) returns (k: nat)
    ensures k <= 64
    ensures LowWordsFull(b, k)
    ensures k < 64 ==> LongIn(b, k) != U64_MAX
  {
    k := 0;
    while k < 64 && LongIn(b, k) == U64_MAX
      invariant k <= 64
      invariant LowWordsFull(b, k)
    {
      k := k + 1;
    }
  }

  /** Block, word and inner position of a bit. */
  function Decomposition(bit: nat): (r: (nat, nat, nat))
    ensures r.1 < 64 && r.2 < 64 && bit == r.0 * BLOCK_BITS + r.1 * 64 + r.2
  {
    (bit / BLOCK_BITS, bit % BLOCK_BITS / 64, bit % BLOCK_BITS % 64)
  }

  lemma BitInRange(bit: nat, blocks: nat)
    ensures bit < blocks * BLOCK_BITS <==> bit / BLOCK_BITS < blocks
  {
  }

  lemma BitIn(q: nat, blockId: nat)
    requires blockId * BLOCK_BITS <= q < (blockId + 1) * BLOCK_BITS
    ensures q / BLOCK_BITS == blockId && q % BLOCK_BITS == q - blockId * BLOCK_BITS
  {
  }
}
