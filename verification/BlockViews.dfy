/** A disk block and the ways the file system looks at its 512 bytes.

    The cache hands out typed references into a block, so the same memory is read as bytes, as 128 block
    pointers, as 64 bitmap words or as four inodes. A block is kept here as its 128 little-endian 32-bit
    words; the other views are computed from them, and writing through a view computes the words back.
  */
module BlockViews {

  const BLOCK_SZ: nat := 512
  const PTRS: nat := 128
  const DIRECT: nat := 28

  type u8 = x: int | 0 <= x < 0x100
  type u32 = x: int | 0 <= x < 0x1_0000_0000
  type u64 = x: int | 0 <= x < 0x1_0000_0000_0000_0000

  type Block = w: seq<u32> | |w| == PTRS witness seq(PTRS, _ => 0)

  predicate IsZero(b: Block) { forall k :: 0 <= k < PTRS ==> b[k] == 0 }

  datatype RawInode = RawInode(size: u32, direct: seq<u32>, indirect1: u32, indirect2: u32, kind: u32)

  /** The inode record as it lies on disk: 32 words, 28 of them direct pointers. */
  type Inode = d: RawInode | |d.direct| == DIRECT
    witness RawInode(0, seq(DIRECT, _ => 0), 0, 0, 0)

  const FILE: u32 := 0
  const DIRECTORY: u32 := 1

  /** An inode record fresh from `initialize`. */
  function Initialized(kind: u32): Inode { RawInode(0, seq(DIRECT, _ => 0), 0, 0, kind) }

  // ---- bytes ----

  /** The four bytes of a word, least significant first. */
  function LE4(v: u32): (s: seq<u8>)
    ensures |s| == 4
  {
    [v % 256, v / 256 % 256, v / 65536 % 256, v / 16777216]
  }

  function Word(a: int, b: int, c: int, d: int): u32
    requires 0 <= a < 256 && 0 <= b < 256 && 0 <= c < 256 && 0 <= d < 256
  {
    a + 256 * b + 65536 * c + 16777216 * d
  }

  function BytesOfWords(ws: seq<u32>): (s: seq<u8>)
    ensures |s| == 4 * |ws|
  {
    if ws == [] then [] else LE4(ws[0]) + BytesOfWords(ws[1..])
  }

  function WordsOfBytes(s: seq<u8>): (ws: seq<u32>)
    requires |s| % 4 == 0
    ensures 4 * |ws| == |s|
  {
    if s == [] then [] else [Word(s[0], s[1], s[2], s[3])] + WordsOfBytes(s[4..])
  }

  lemma LE4Word(a: int, b: int, c: int, d: int)
    requires 0 <= a < 256 && 0 <= b < 256 && 0 <= c < 256 && 0 <= d < 256
    ensures LE4(Word(a, b, c, d)) == [a, b, c, d]
  {
    var v := Word(a, b, c, d);
    assert v / 256 == b + 256 * c + 65536 * d;
    assert v / 65536 == c + 256 * d;
  }

  lemma WordLE4(v: u32)
    ensures var s := LE4(v); Word(s[0], s[1], s[2], s[3]) == v
  {
    assert v / 65536 == v / 256 / 256 && v / 16777216 == v / 65536 / 256;
  }

  lemma {:induction false} BytesOfWordsOfBytes(s: seq<u8>)
    requires |s| % 4 == 0
    ensures BytesOfWords(WordsOfBytes(s)) == s
  {
    if s != [] {
      LE4Word(s[0], s[1], s[2], s[3]);
      BytesOfWordsOfBytes(s[4..]);
      assert WordsOfBytes(s)[1..] == WordsOfBytes(s[4..]);
      assert s == [s[0], s[1], s[2], s[3]] + s[4..];
    }
  }

  lemma {:induction false} WordsOfBytesOfWords(ws: seq<u32>)
    ensures WordsOfBytes(BytesOfWords(ws)) == ws
  {
    if ws != [] {
      WordsOfHead(ws[0], BytesOfWords(ws[1..]));
      WordsOfBytesOfWords(ws[1..]);
    }
  }

  lemma WordsOfHead(w: u32, rest: seq<u8>)
    requires |rest| % 4 == 0
    ensures WordsOfBytes(LE4(w) + rest) == [w] + WordsOfBytes(rest)
  {
    var s := LE4(w) + rest;
    assert s[4..] == rest;
    WordLE4(w);
  }

  function AsBytes(b: Block): (s: seq<u8>)
    ensures |s| == BLOCK_SZ
  {
    BytesOfWords(b)
  }

  function FromBytes(s: seq<u8>): (b: Block)
    requires |s| == BLOCK_SZ
    ensures AsBytes(b) == s
  {
    BytesOfWordsOfBytes(s);
    WordsOfBytes(s)
  }

  /** Reading a block as bytes and writing the bytes back changes nothing. */
  lemma BytesLossless(b: Block)
    ensures FromBytes(AsBytes(b)) == b
  {
    WordsOfBytesOfWords(b);
  }

  /** `s` with `t` written over it from position `at` on. */
  function Splice(s: seq<u8>, at: nat, t: seq<u8>): (r: seq<u8>)
    requires at + |t| <= |s|
    ensures |r| == |s|
  {
    if t == [] then s else s[..at] + t + s[at + |t|..]
  }

  lemma SliceJoin<T>(s: seq<T>, a: nat, b: nat, c: nat)
    requires a <= b <= c <= |s|
    ensures s[a..b] + s[b..c] == s[a..c]
  {
  }

  lemma SliceTake<T>(s: seq<T>, n: nat, a: nat, b: nat)
    requires a <= b <= n <= |s|
    ensures s[..n][a..b] == s[a..b]
  {
  }

  lemma SliceSlice<T>(s: seq<T>, a: nat, b: nat, c: nat, d: nat)
    requires a <= b <= |s| && c <= d <= b - a
    ensures s[a..b][c..d] == s[a + c..a + d]
  {
    var t := s[a..b];
    assert |t[c..d]| == |s[a + c..a + d]|;
    forall i | 0 <= i < d - c
      ensures t[c..d][i] == s[a + c..a + d][i]
    {
      assert t[c..d][i] == t[c + i] == s[a + (c + i)];
    }
  }

  lemma DropSlice<T>(s: seq<T>, a: nat, c: nat, d: nat)
    requires a <= |s| && c <= d <= |s| - a
    ensures s[a..][c..d] == s[a + c..a + d]
  {
    SliceSlice(s, a, |s|, c, d);
    assert s[a..] == s[a..|s|];
  }

  function WithBytes(b: Block, off: nat, s: seq<u8>): (r: Block)
    requires off + |s| <= BLOCK_SZ
    ensures AsBytes(r) == Splice(AsBytes(b), off, s)
  {
    FromBytes(Splice(AsBytes(b), off, s))
  }

  // ---- bitmap words ----

  function LongIn(b: Block, k: nat): u64
    requires k < 64
  {
    var lo: int, hi: int := b[2 * k], b[2 * k + 1];
    lo + 0x1_0000_0000 * hi
  }

  function WithLong(b: Block, k: nat, v: u64): (r: Block)
    requires k < 64
    ensures forall i :: 0 <= i < 64 ==> LongIn(r, i) == if i == k then v else LongIn(b, i)
  {
    b[2 * k := v % 0x1_0000_0000][2 * k + 1 := v / 0x1_0000_0000]
  }

  // ---- inodes ----

  function InodeIn(b: Block, s: nat): Inode
    requires s < 4
  {
    RawInode(b[32 * s], b[32 * s + 1..32 * s + 29], b[32 * s + 29], b[32 * s + 30], b[32 * s + 31])
  }

  function InodeWords(d: Inode): (w: seq<u32>)
    ensures |w| == 32
  {
    [d.size] + d.direct + [d.indirect1, d.indirect2, d.kind]
  }

  function WithInode(b: Block, s: nat, d: Inode): (r: Block)
    requires s < 4
    ensures forall i :: 0 <= i < 4 ==> InodeIn(r, i) == if i == s then d else InodeIn(b, i)
  {
    var r: Block := b[..32 * s] + InodeWords(d) + b[32 * s + 32..];
    assert InodeIn(r, s).direct == d.direct;
    assert forall i :: 0 <= i < 4 && i != s ==> InodeIn(r, i).direct == InodeIn(b, i).direct;
    r
  }

  /** Writing back what was read through the other two views changes nothing either. */
  lemma ViewsLossless(b: Block, k: nat, s: nat)
    requires k < 64 && s < 4
    ensures WithLong(b, k, LongIn(b, k)) == b && WithInode(b, s, InodeIn(b, s)) == b
  {
    assert LongIn(b, k) % 0x1_0000_0000 == b[2 * k] && LongIn(b, k) / 0x1_0000_0000 == b[2 * k + 1];
    assert b[32 * s..32 * s + 32] == InodeWords(InodeIn(b, s));
  }

  function Zeros(n: nat): (s: seq<u8>)
    ensures |s| == n && forall i :: 0 <= i < n ==> s[i] == 0
  {
    seq(n, _ => 0)
  }

  lemma {:induction false} ZeroBytes(ws: seq<u32>)
    requires forall k :: 0 <= k < |ws| ==> ws[k] == 0
    ensures BytesOfWords(ws) == Zeros(4 * |ws|)
  {
    if ws != [] {
      ZeroBytes(ws[1..]);
      assert LE4(0) == Zeros(4);
    }
  }

  lemma BytesInjective(a: Block, b: Block)
    requires AsBytes(a) == AsBytes(b)
    ensures a == b
  {
    BytesLossless(a);
    BytesLossless(b);
  }

  /** A block of zero bytes is an empty bitmap and four empty inodes, and a zero block has zero bytes. */
  lemma ZeroBlockViews(b: Block)
    requires AsBytes(b) == Zeros(BLOCK_SZ) || IsZero(b)
    ensures AsBytes(b) == Zeros(BLOCK_SZ) && IsZero(b)
    ensures forall i :: 0 <= i < 64 ==> LongIn(b, i) == 0
    ensures forall i :: 0 <= i < 4 ==> InodeIn(b, i) == Initialized(FILE)
  {
    var z: Block := seq(PTRS, _ => 0);
    ZeroBytes(z);
    if IsZero(b) { ZeroBytes(b); }
    BytesInjective(b, z);
    assert forall i :: 0 <= i < 4 ==> InodeIn(b, i).direct == Initialized(FILE).direct;
  }

  /** Sets every byte of a block to zero. */
  method ZeroFill(b: Block) returns (z: Block)
    ensures IsZero(z)
  {
    var s := AsBytes(b);
    for j := 0 to BLOCK_SZ
      invariant |s| == BLOCK_SZ && forall k :: 0 <= k < j ==> s[k] == 0
    {
      s := s[j := 0];
    }
    assert s == Zeros(BLOCK_SZ);
    z := FromBytes(s);
    ZeroBlockViews(z);
  }
}
