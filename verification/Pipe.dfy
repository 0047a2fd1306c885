/** The pipe: a ring of 32 bytes with a status flag, read and written through fragmented user buffers, and the
    retry loops of the user library around it. It behaves as a bounded first-in first-out queue.
  */
module Pipes {
  import opened BlockViews
  import opened Options

  const RING_BUFFER_SIZE: nat := 32
  const AGAIN: int := -2

  // ---- user buffers ----

  /** The bytes of all fragments, one after the other. */
  function Flat(bs: seq<seq<u8>>): seq<u8> { if bs == [] then [] else bs[0] + Flat(bs[1..]) }

  /** Bytes in front of fragment k. */
  function Offset(bs: seq<seq<u8>>, k: nat): nat
    requires k <= |bs|
  {
    if k == 0 then 0 else |bs[0]| + Offset(bs[1..], k - 1)
  }

  lemma {:induction false} FlatAt(bs: seq<seq<u8>>, k: nat, i: nat)
    requires k < |bs| && i < |bs[k]|
    ensures Offset(bs, k) + i < |Flat(bs)| && Flat(bs)[Offset(bs, k) + i] == bs[k][i]
  {
    if k > 0 { FlatAt(bs[1..], k - 1, i); }
  }

  function PutAt(bs: seq<seq<u8>>, k: nat, i: nat, c: u8): (r: seq<seq<u8>>)
    requires k < |bs| && i < |bs[k]|
    ensures |r| == |bs| && forall j :: 0 <= j < |bs| ==> |r[j]| == |bs[j]|
  {
    var fragment: seq<u8> := bs[k][i := c];
    bs[k := fragment]
  }

  lemma {:induction false} FlatPut(bs: seq<seq<u8>>, k: nat, i: nat, c: u8)
    requires k < |bs| && i < |bs[k]|
    ensures Offset(bs, k) + i < |Flat(bs)|
    ensures Flat(PutAt(bs, k, i, c)) == Flat(bs)[Offset(bs, k) + i := c]
  {
    if k == 0 {
      assert PutAt(bs, 0, i, c)[1..] == bs[1..];
    } else {
      assert PutAt(bs, k, i, c)[1..] == PutAt(bs[1..], k - 1, i, c);
      FlatPut(bs[1..], k - 1, i, c);
    }
  }

  lemma {:induction false} OffsetNext(bs: seq<seq<u8>>, k: nat)
    requires k < |bs|
    ensures Offset(bs, k + 1) == Offset(bs, k) + |bs[k]|
  {
    if k > 0 { OffsetNext(bs[1..], k - 1); }
  }

  lemma {:induction false} OffsetSame(bs: seq<seq<u8>>, cs: seq<seq<u8>>, k: nat)
    requires |bs| == |cs| && k <= |bs| && forall j :: 0 <= j < |bs| ==> |bs[j]| == |cs[j]|
    ensures Offset(bs, k) == Offset(cs, k)
  {
    if k > 0 { OffsetSame(bs[1..], cs[1..], k - 1); }
  }

  lemma {:induction false} OffsetAll(bs: seq<seq<u8>>)
    ensures Offset(bs, |bs|) == |Flat(bs)|
  {
    if bs != [] { OffsetAll(bs[1..]); }
  }

  /** Pieces of user memory, none of them empty. */
  class UserBuffer {
    var buffers: seq<seq<u8>>

    constructor (buffers: seq<seq<u8>>)
      ensures this.buffers == buffers
    {
      this.buffers := buffers;
    }

    predicate Valid()
      reads this
    {
      forall k :: 0 <= k < |buffers| ==> buffers[k] != []
    }

    function Bytes(): seq<u8>
      reads this
    {
      Flat(buffers)
    }

    method Len() returns (total: nat)
      ensures total == |Bytes()|
    {
      total := 0;
      for k := 0 to |buffers|
        invariant total == Offset(buffers, k)
      {
        OffsetNext(buffers, k);
        total := total + |buffers[k]|;
      }
      OffsetAll(buffers);
    }
  }

  /** Walks over the fragments byte by byte. */
  class UserBufferIterator {
    const buf: UserBuffer
    var currentBuffer: nat
    var currentIdx: nat

    constructor (buf: UserBuffer)
      requires buf.Valid()
      ensures this.buf == buf && Valid() && Passed() == 0
    {
      this.buf, currentBuffer, currentIdx := buf, 0, 0;
    }

    predicate Valid()
      reads this, buf
    {
      && buf.Valid() && currentBuffer <= |buf.buffers|
      && if currentBuffer == |buf.buffers| then currentIdx == 0 else currentIdx < |buf.buffers[currentBuffer]|
    }

    /** How many bytes lie behind. */
    function Passed(): nat
      requires Valid()
      reads this, buf
    {
      Offset(buf.buffers, currentBuffer) + currentIdx
    }

    /** The place of the next byte: fragment and index. */
    method Next() returns (r: Option<(nat, nat)>)
      requires Valid()
      modifies this
      ensures Valid() && (r.None? <==> old(Passed()) == |buf.Bytes()|)
      ensures r.None? ==> Passed() == old(Passed())
      ensures r.Some? ==>
                && r.value.0 < |buf.buffers| && r.value.1 < |buf.buffers[r.value.0]|
                && Offset(buf.buffers, r.value.0) + r.value.1 == old(Passed()) < |buf.Bytes()|
                     && Passed() == old(Passed()) + 1
    {
      if currentBuffer >= |buf.buffers| {
        OffsetAll(buf.buffers);
        r := None;
      } else {
        FlatAt(buf.buffers, currentBuffer, currentIdx);
        OffsetNext(buf.buffers, currentBuffer);
        r := Some((currentBuffer, currentIdx));
        if currentIdx + 1 == |buf.buffers[currentBuffer]| {
          currentIdx := 0;
          currentBuffer := currentBuffer + 1;
        } else {
          currentIdx := currentIdx + 1;
        }
      }
    }
  }

  // ---- the ring ----

  /** The bytes from `head` up to `tail`, going round; `empty` decides when the two are equal. */
  function Ring(a: seq<u8>, head: nat, tail: nat, empty: bool): seq<u8>
    requires |a| == RING_BUFFER_SIZE && head < |a| && tail < |a|
  {
    if empty then [] else if head < tail then a[head..tail] else a[head..] + a[..tail]
  }

  /** An index up to twice around. */
  function Wrap(i: nat): nat { if i < RING_BUFFER_SIZE then i else i - RING_BUFFER_SIZE }

  /** The k-th byte of the ring. */
  lemma RingAt(a: seq<u8>, head: nat, tail: nat, k: nat)
    requires |a| == RING_BUFFER_SIZE && head < |a| && tail < |a|
    requires k < if head < tail then tail - head else tail + RING_BUFFER_SIZE - head
    ensures |Ring(a, head, tail, false)| == if head < tail then tail - head else tail + RING_BUFFER_SIZE - head
    ensures Wrap(head + k) < |a| && Ring(a, head, tail, false)[k] == a[Wrap(head + k)]
  {
  }

  lemma Consed(s: seq<u8>, x: u8, r: seq<u8>)
    requires |s| == |r| + 1 && s[0] == x && forall k :: 0 <= k < |r| ==> s[k + 1] == r[k]
    ensures s == [x] + r
  {
  }

  lemma Snoced(s: seq<u8>, r: seq<u8>, x: u8)
    requires |s| == |r| + 1 && s[|r|] == x && forall k :: 0 <= k < |r| ==> s[k] == r[k]
    ensures s == r + [x]
  {
  }

  lemma RingPop(a: seq<u8>, head: nat, tail: nat)
    requires |a| == RING_BUFFER_SIZE && head < |a| && tail < |a|
    ensures var next := (head + 1) % RING_BUFFER_SIZE;
            Ring(a, head, tail, false) == [a[head]] + Ring(a, next, tail, next == tail)
  {
    var next := (head + 1) % RING_BUFFER_SIZE;
    assert next == Wrap(head + 1);
    var s, r := Ring(a, head, tail, false), Ring(a, next, tail, next == tail);
    RingAt(a, head, tail, 0);
    forall k | 0 <= k < |r|
      ensures s[k + 1] == r[k]
    {
      RingAt(a, next, tail, k);
      RingAt(a, head, tail, k + 1);
    }
    Consed(s, a[head], r);
  }

  lemma RingPush(a: seq<u8>, head: nat, tail: nat, empty: bool, b: u8)
    requires |a| == RING_BUFFER_SIZE && head < |a| && tail < |a| && (empty <==> head == tail)
    ensures Ring(a[tail := b], head, (tail + 1) % RING_BUFFER_SIZE, false) == Ring(a, head, tail, empty) + [b]
  {
    var next, a' := (tail + 1) % RING_BUFFER_SIZE, a[tail := b];
    var s, r := Ring(a', head, next, false), Ring(a, head, tail, empty);
    assert next == Wrap(tail + 1);
    RingAt(a', head, next, |r|);
    assert Wrap(head + |r|) == tail;
    forall k | 0 <= k < |r|
      ensures s[k] == r[k]
    {
      RingAt(a, head, tail, k);
      RingAt(a', head, next, k);
    }
    Snoced(s, r, b);
  }

  datatype RingBufferStatus = Full | Empty | Normal

  class PipeRingBuffer {
    const arr: array<u8>
    var head: nat
    var tail: nat
    var status: RingBufferStatus
    /** How many write ends are open. */
    var writeEnds: nat
    /** Everything that was ever written, and everything that was ever read. */
    ghost var written: seq<u8>
    ghost var read: seq<u8>

    constructor ()
      ensures Valid() && Contents() == [] && written == [] && read == [] && writeEnds == 1 && fresh(arr)
    {
      arr := new u8[RING_BUFFER_SIZE](_ => 0);
      head, tail, status, writeEnds := 0, 0, Empty, 1;
      written, read := [], [];
    }

    /** The bytes in the ring, oldest first. */
    function Contents(): seq<u8>
      requires arr.Length == RING_BUFFER_SIZE && head < RING_BUFFER_SIZE && tail < RING_BUFFER_SIZE
      reads this, arr
    {
      Ring(arr[..], head, tail, status == Empty)
    }

    /** The flag tells a full ring from an empty one; what was written and not read is in the ring. */
    ghost predicate Valid()
      reads this, arr
    {
      && arr.Length == RING_BUFFER_SIZE && head < RING_BUFFER_SIZE && tail < RING_BUFFER_SIZE
      && (status == Normal <==> head != tail)
      && written == read + Contents()
    }

    method WriteByte(byte: u8)
      requires Valid() && |Contents()| < RING_BUFFER_SIZE
      modifies this, arr
      ensures Valid() && Contents() == old(Contents()) + [byte]
      ensures written == old(written) + [byte] && read == old(read) && writeEnds == old(writeEnds)
    {
      RingPush(arr[..], head, tail, status == Empty, byte);
      status := Normal;
      arr[tail] := byte;
      tail := (tail + 1) % RING_BUFFER_SIZE;
      if tail == head {
        status := Full;
      }
      written := written + [byte];
    }

    method ReadByte() returns (c: u8)
      requires Valid() && Contents() != []
      modifies this
      ensures Valid() && old(Contents()) == [c] + Contents()
      ensures read == old(read) + [c] && written == old(written) && writeEnds == old(writeEnds)
    {
      RingPop(arr[..], head, tail);
      status := Normal;
      c := arr[head];
      head := (head + 1) % RING_BUFFER_SIZE;
      if head == tail {
        status := Empty;
      }
      read := read + [c];
    }

    function AvailableRead(): (n: nat)
      requires Valid()
      reads this, arr
      ensures n == |Contents()| <= RING_BUFFER_SIZE
    {
      if status == Empty then 0 else if tail > head then tail - head else tail + RING_BUFFER_SIZE - head
    }

    function AvailableWrite(): (n: nat)
      requires Valid()
      reads this, arr
      ensures n == RING_BUFFER_SIZE - |Contents()|
    {
      if status == Full then 0 else RING_BUFFER_SIZE - AvailableRead()
    }

    predicate AllWriteEndsClosed()
      reads this
    {
      writeEnds == 0
    }

    method CloseWriteEnd()
      requires Valid() && writeEnds > 0
      modifies this`writeEnds
      ensures Valid() && Contents() == old(Contents()) && writeEnds == old(writeEnds) - 1
    {
      writeEnds := writeEnds - 1;
    }
  }

  function Min(a: nat, b: nat): nat { if a < b then a else b }

  // ---- the two ends ----

  class PipeReader {
    const buffer: PipeRingBuffer

    constructor (buffer: PipeRingBuffer)
      ensures this.buffer == buffer
    {
      this.buffer := buffer;
    }

    /** Moves the oldest byte of the ring to the place of the next byte of the buffer. */
    method ReadOne(bufIter: UserBufferIterator, k: nat, i: nat, ghost n: nat)
      requires buffer.Valid() && buffer.Contents() != [] && bufIter.Valid() && bufIter.Passed() == n + 1
      requires k < |bufIter.buf.buffers| && i < |bufIter.buf.buffers[k]|
      requires Offset(bufIter.buf.buffers, k) + i == n < |bufIter.buf.Bytes()|
      modifies buffer, bufIter.buf
      ensures buffer.Valid() && buffer.written == old(buffer.written) && buffer.writeEnds == old(buffer.writeEnds)
      ensures buffer.Contents() == old(buffer.Contents())[1..]
      ensures bufIter.Valid() && bufIter.Passed() == n + 1 && |bufIter.buf.buffers| == |old(bufIter.buf.buffers)|
      ensures bufIter.buf.Bytes() == old(bufIter.buf.Bytes())[n := old(buffer.Contents())[0]]
    {
      var buf := bufIter.buf;
      var byte := buffer.ReadByte();
      FlatPut(buf.buffers, k, i, byte);
      OffsetSame(buf.buffers, PutAt(buf.buffers, k, i, byte), bufIter.currentBuffer);
      buf.buffers := PutAt(buf.buffers, k, i, byte);
    }

    /** Takes as many bytes as there are and fit: 0 at the end of the data, -2 when there are none yet. */
    method Read(buf: UserBuffer) returns (ret: int)
      requires buffer.Valid() && buf.Valid()
      modifies buffer, buf
      ensures buffer.Valid() && buf.Valid() && |buf.buffers| == |old(buf.buffers)|
      ensures buffer.written == old(buffer.written) && buffer.writeEnds == old(buffer.writeEnds)
      ensures old(buffer.Contents()) == [] ==>
                ret == (if buffer.writeEnds == 0 then 0 else AGAIN) && buffer.Contents() == []
                  && buf.buffers == old(buf.buffers)
      ensures old(buffer.Contents()) != [] ==>
                && ret == Min(|old(buffer.Contents())|, |old(buf.Bytes())|)
                && buffer.Contents() == old(buffer.Contents())[ret..]
                && buf.Bytes() == old(buffer.Contents())[..ret] + old(buf.Bytes())[ret..]
    {
      ghost var c0, f0 := buffer.Contents(), buf.Bytes();
      var wantToRead := buf.Len();
      var bufIter := new UserBufferIterator(buf);
      var alreadyRead: nat := 0;
      var loopRead := buffer.AvailableRead();
      if loopRead == 0 {
        if buffer.AllWriteEndsClosed() {
          return 0;
        }
        return AGAIN;
      }
      for n := 0 to loopRead
        invariant bufIter.buf == buf && fresh(bufIter) && bufIter.Valid()
                  && bufIter.Passed() == alreadyRead == n <= |f0|
        invariant buffer.Valid() && buffer.written == old(buffer.written) && buffer.writeEnds == old(buffer.writeEnds)
        invariant |buf.buffers| == |old(buf.buffers)|
        invariant buffer.Contents() == c0[n..]
        invariant buf.Bytes() == c0[..n] + f0[n..]
      {
        var next := bufIter.Next();
        if next.None? {
          return alreadyRead;
        }
        ReadOne(bufIter, next.value.0, next.value.1, n);
        OneMore(c0, f0, n);
        alreadyRead := alreadyRead + 1;
        if alreadyRead == wantToRead {
          return wantToRead;
        }
      }
      ret := alreadyRead;
    }
  }

  lemma OneMore(c: seq<u8>, f: seq<u8>, n: nat)
    requires n < |c| && n < |f|
    ensures (c[..n] + f[n..])[n := c[n]] == c[..n + 1] + f[n + 1..]
    ensures c[n..][1..] == c[n + 1..] && c[n..][0] == c[n]
  {
  }

  /** `c` followed by the first n bytes of `f`. */
  function With(c: seq<u8>, f: seq<u8>, n: nat): (r: seq<u8>)
    requires n <= |f|
    ensures |r| == |c| + n
  {
    if n == 0 then c else c + f[..n]
  }

  lemma WithMore(c: seq<u8>, f: seq<u8>, n: nat)
    requires n < |f|
    ensures With(c, f, n) + [f[n]] == With(c, f, n + 1)
  {
    assert f[..n + 1] == f[..n] + [f[n]];
  }

  class PipeWriter {
    const buffer: PipeRingBuffer

    constructor (buffer: PipeRingBuffer)
      ensures this.buffer == buffer
    {
      this.buffer := buffer;
    }

    /** Puts the byte at place (k, i) of the buffer into the ring. */
    method WriteOne(buf: UserBuffer, k: nat, i: nat, ghost n: nat)
      requires buffer.Valid() && |buffer.Contents()| < RING_BUFFER_SIZE
      requires k < |buf.buffers| && i < |buf.buffers[k]| && Offset(buf.buffers, k) + i == n
      modifies buffer, buffer.arr
      ensures buffer.Valid() && buffer.read == old(buffer.read) && buffer.writeEnds == old(buffer.writeEnds)
      ensures n < |buf.Bytes()| && buffer.Contents() == old(buffer.Contents()) + [buf.Bytes()[n]]
    {
      FlatAt(buf.buffers, k, i);
      buffer.WriteByte(buf.buffers[k][i]);
    }

    /** Puts in as many bytes as fit: -2 when the ring is full. */
    method Write(buf: UserBuffer) returns (ret: int)
      requires buffer.Valid() && buf.Valid()
      modifies buffer, buffer.arr
      ensures buffer.Valid() && buffer.read == old(buffer.read) && buffer.writeEnds == old(buffer.writeEnds)
      ensures |old(buffer.Contents())| == RING_BUFFER_SIZE ==>
              ret == AGAIN && buffer.Contents() == old(buffer.Contents())
      ensures |old(buffer.Contents())| != RING_BUFFER_SIZE ==>
                && ret == Min(RING_BUFFER_SIZE - |old(buffer.Contents())|, |buf.Bytes()|)
                && buffer.Contents() == With(old(buffer.Contents()), buf.Bytes(), ret)
    {
      ghost var c0, f := buffer.Contents(), buf.Bytes();
      var wantToWrite := buf.Len();
      var bufIter := new UserBufferIterator(buf);
      var alreadyWrite: nat := 0;
      var loopWrite := buffer.AvailableWrite();
      if loopWrite == 0 {
        return AGAIN;
      }
      for n := 0 to loopWrite
        invariant bufIter.buf == buf && fresh(bufIter) && bufIter.Valid()
                  && bufIter.Passed() == alreadyWrite == n <= |f|
        invariant buffer.Valid() && buffer.read == old(buffer.read) && buffer.writeEnds == old(buffer.writeEnds)
        invariant buffer.Contents() == With(c0, f, n)
      {
        var next := bufIter.Next();
        if next.None? {
          return alreadyWrite;
        }
        WriteOne(buf, next.value.0, next.value.1, n);
        WithMore(c0, f, n);
        alreadyWrite := alreadyWrite + 1;
        if alreadyWrite == wantToWrite {
          return wantToWrite;
        }
      }
      ret := alreadyWrite;
    }
  }

  method MakePipe() returns (readEnd: PipeReader, writeEnd: PipeWriter)
    ensures readEnd.buffer == writeEnd.buffer && readEnd.buffer.Valid() && readEnd.buffer.Contents() == []
    ensures fresh(readEnd.buffer) && fresh(readEnd.buffer.arr) && readEnd.buffer.writeEnds == 1
  {
    var buffer := new PipeRingBuffer();
    readEnd := new PipeReader(buffer);
    writeEnd := new PipeWriter(buffer);
  }

  // ---- the retry loops of the user library ----

  /** A writer sends `data` with `pipe_write`, a reader fills a buffer of `want` bytes with `pipe_read`; `sent` and
      `got` say how far they are. The write end closes when the writer is through. */
  datatype Exchange = Exchange(data: seq<u8>, sent: nat, ring: seq<u8>, want: nat, got: seq<u8>, readerDone: bool) {

    predicate Valid() {
      sent <= |data| && got + ring == data[..sent] && |ring| <= RING_BUFFER_SIZE && |got| <= want
    }

    predicate WriterDone() { sent == |data| }

    /** One `write` and the retry decision. */
    function WriterTurn(): Exchange
      requires Valid()
    {
      if WriterDone() || |ring| == RING_BUFFER_SIZE then this
      else
        var n := Min(RING_BUFFER_SIZE - |ring|, |data| - sent);
        this.(sent := sent + n, ring := ring + data[sent..sent + n])
    }

    /** One `read` and the retry decision. */
    function ReaderTurn(): Exchange
      requires Valid()
    {
      if readerDone then this
      else if |got| >= want then this.(readerDone := true)
      else if ring == [] then this.(readerDone := WriterDone())
      else
        var n := Min(|ring|, want - |got|);
        this.(got := got + ring[..n], ring := ring[n..])
    }

    function Turn(writer: bool): Exchange
      requires Valid()
    {
      if writer then WriterTurn() else ReaderTurn()
    }
  }

  lemma TurnKeeps(x: Exchange, writer: bool)
    requires x.Valid()
    ensures var y := x.Turn(writer);
            y.Valid() && y.data == x.data && y.want == x.want && x.got <= y.got && x.sent <= y.sent
  {
    var y := x.Turn(writer);
    if writer && y != x {
      assert x.data[..y.sent] == x.data[..x.sent] + x.data[x.sent..y.sent];
      assert y.got + y.ring == (x.got + x.ring) + x.data[x.sent..y.sent];
    } else if !writer && y.got != x.got {
      var n := |y.got| - |x.got|;
      assert x.ring == x.ring[..n] + x.ring[n..];
      assert y.got + y.ring == x.got + x.ring;
    }
  }

  function Turns(x: Exchange, ts: seq<bool>): Exchange
    requires x.Valid()
    decreases |ts|
  {
    if ts == [] then x
    else
      TurnKeeps(x, ts[0]);
      Turns(x.Turn(ts[0]), ts[1..])
  }

  /** Whatever the schedule: what was read is a prefix of what was written, the ring holds the difference. */
  lemma {:induction false} TurnsKeep(x: Exchange, ts: seq<bool>)
    requires x.Valid()
    ensures var y := Turns(x, ts);
            y.Valid() && y.data == x.data && y.want == x.want && x.got <= y.got && y.got <= x.data
    decreases |ts|
  {
    if ts == [] {
      assert x.got <= x.data[..x.sent] <= x.data;
    } else {
      TurnKeeps(x, ts[0]);
      TurnsKeep(x.Turn(ts[0]), ts[1..]);
    }
  }

  /** How much there is still to do. */
  function Remaining(x: Exchange): int {
    2 * (|x.data| - x.sent) + |x.ring| + (if x.readerDone then 0 else 1)
  }

  /** The two are never stuck together: unless both are through, or the reader is and the ring is full, a turn of
      one of them does something. */
  lemma SomebodyMoves(x: Exchange)
    requires x.Valid() && x.WriterTurn() == x && x.ReaderTurn() == x
    ensures x.readerDone && (x.WriterDone() || |x.ring| == RING_BUFFER_SIZE)
  {
  }

  lemma TurnProgress(x: Exchange, writer: bool)
    requires x.Valid() && x.Turn(writer) != x
    ensures 0 <= Remaining(x.Turn(writer)) < Remaining(x)
  {
    TurnKeeps(x, writer);
  }

  /** When the reader asks for no more than is sent, or for all of it, it gets exactly that: everything on return
      is the first `want` bytes, and the whole data if `want` covers it. */
  lemma ExchangeComplete(data: seq<u8>, want: nat, ts: seq<bool>)
    ensures var x := Exchange(data, 0, [], want, [], false);
            x.Valid() && (Turns(x, ts).readerDone ==> Turns(x, ts).got == data[..Min(want, |data|)])
  {
    var x := Exchange(data, 0, [], want, [], false);
    ReaderDoneMeans(x, ts);
    TurnsKeep(x, ts);
    var y := Turns(x, ts);
    if y.readerDone { assert y.got == data[..|y.got|]; }
  }

  lemma {:induction false} ReaderDoneMeans(x: Exchange, ts: seq<bool>)
    requires x.Valid() && (x.readerDone ==> |x.got| == x.want || (x.WriterDone() && x.ring == []))
    ensures var y := Turns(x, ts); y.Valid() && (y.readerDone ==> |y.got| == Min(x.want, |x.data|))
    decreases |ts|
  {
    TurnsKeep(x, ts);
    if ts != [] {
      TurnKeeps(x, ts[0]);
      ReaderDoneMeans(x.Turn(ts[0]), ts[1..]);
    } else if x.readerDone && x.ring == [] {
      assert |x.got| == |x.data[..x.sent]|;
    }
  }

  function WriterTurns(x: Exchange, n: nat): Exchange
    requires x.Valid()
    decreases n
  {
    if n == 0 then x
    else
      TurnKeeps(x, true);
      WriterTurns(x.WriterTurn(), n - 1)
  }

  /** Without a reader, `pipe_write` returns exactly when the data fits into what is free in the ring. */
  lemma {:induction false} WriterAlone(x: Exchange, n: nat)
    requires x.Valid() && n > 0
    ensures WriterTurns(x, n).WriterDone() <==> |x.data| - x.sent <= RING_BUFFER_SIZE - |x.ring|
    decreases n
  {
    TurnKeeps(x, true);
    var y := x.WriterTurn();
    if n > 1 { WriterAlone(y, n - 1); }
  }

  // ---- the same over the pipe itself ----

  /** One round of `pipe_write`: offers the rest of the data, and tries again later when the ring is full. */
  method WriteRound(writeEnd: PipeWriter, data: seq<u8>, sent: nat, ghost x: Exchange) returns (sent': nat)
    requires writeEnd.buffer.Valid() && x.Valid() && x.data == data && x.sent == sent
             && x.ring == writeEnd.buffer.Contents()
    modifies writeEnd.buffer, writeEnd.buffer.arr
    ensures writeEnd.buffer.Valid() && writeEnd.buffer.writeEnds == old(writeEnd.buffer.writeEnds)
    ensures x.WriterTurn() == x.(sent := sent', ring := writeEnd.buffer.Contents())
  {
    if sent >= |data| {
      return sent;
    }
    var buf := new UserBuffer([data[sent..]]);
    OneFragment(data[sent..]);
    var ret := writeEnd.Write(buf);
    if ret == AGAIN {
      sent' := sent;
    } else {
      sent' := sent + ret;
      WroteSome(x, data[sent..], ret);
    }
  }

  lemma WroteSome(x: Exchange, rest: seq<u8>, n: nat)
    requires x.Valid() && !x.WriterDone() && |x.ring| != RING_BUFFER_SIZE && rest == x.data[x.sent..]
    requires n == Min(RING_BUFFER_SIZE - |x.ring|, |rest|)
    ensures x.WriterTurn() == x.(sent := x.sent + n, ring := With(x.ring, rest, n))
  {
    assert rest[..n] == x.data[x.sent..x.sent + n];
  }

  /** One round of `pipe_read`: asks for the rest, stops at the end of the data, and tries again later when there is
      nothing yet. */
  method ReadRound(readEnd: PipeReader, got: seq<u8>, want: nat, ghost x: Exchange) returns (got': seq<u8>, done: bool)
    requires readEnd.buffer.Valid() && x.Valid() && x.got == got && x.want == want
             && x.ring == readEnd.buffer.Contents()
    requires !x.readerDone && (readEnd.buffer.writeEnds == 0 <==> x.WriterDone())
    modifies readEnd.buffer
    ensures readEnd.buffer.Valid() && readEnd.buffer.writeEnds == old(readEnd.buffer.writeEnds)
    ensures x.ReaderTurn() == x.(got := got', ring := readEnd.buffer.Contents(), readerDone := done)
  {
    if |got| >= want {
      return got, true;
    }
    var buf := new UserBuffer([Zeros(want - |got|)]);
    OneFragment(Zeros(want - |got|));
    var ret := readEnd.Read(buf);
    if ret == AGAIN || ret == 0 {
      got', done := got, ret == 0;
    } else {
      got', done := got + buf.Bytes()[..ret], false;
    }
  }

  lemma OneFragment(s: seq<u8>)
    ensures Flat([s]) == s
  {
    assert [s][1..] == [];
  }

  /** A writer and a reader take turns on one pipe, in any order; the write end is closed when the writer is through.
      The pipe does what the model of the exchange says, so a reader that is through has exactly what was sent. */
  method Transfer(data: seq<u8>, want: nat, ts: seq<bool>) returns (got: seq<u8>, done: bool)
    ensures var y := Turns(Exchange(data, 0, [], want, [], false), ts); got == y.got && done == y.readerDone
    ensures got <= data && (done ==> got == data[..Min(want, |data|)])
  {
    ghost var x := Exchange(data, 0, [], want, [], false);
    ExchangeComplete(data, want, ts);
    TurnsKeep(x, ts);
    var readEnd, writeEnd := MakePipe();
    var buffer := readEnd.buffer;
    var sent: nat := 0;
    got, done := [], false;
    if sent == |data| {
      buffer.CloseWriteEnd();
    }
    for i := 0 to |ts|
      invariant fresh(buffer) && fresh(buffer.arr) && buffer.Valid() && buffer == readEnd.buffer == writeEnd.buffer
      invariant x == Exchange(data, sent, buffer.Contents(), want, got, done) && x.Valid()
      invariant buffer.writeEnds == if sent == |data| then 0 else 1
      invariant Turns(x, ts[i..]) == Turns(Exchange(data, 0, [], want, [], false), ts)
    {
      TurnKeeps(x, ts[i]);
      assert ts[i..][1..] == ts[i + 1..];
      if ts[i] {
        sent := WriteRound(writeEnd, data, sent, x);
        if sent == |data| && buffer.writeEnds > 0 {
          buffer.CloseWriteEnd();
        }
      } else if !done {
        got, done := ReadRound(readEnd, got, want, x);
      }
      x := x.Turn(ts[i]);
    }
  }
}
