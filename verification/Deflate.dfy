/** The compressor (codec-deflate/deflate.c, brutal-io/wbits.h): level 0, stored blocks of at most 65535 bytes. */
module Deflate {
  import opened Bits
  import opened BitReader
  import opened DeflateFormat
  import opened InflateStream
  import opened InflateBlocks

  class IoWBits {
    /** What the underlying writer has received. */
    var out: seq<Byte>
    var bitbuf: nat
    var bitcount: nat

    ghost predicate Valid()
      reads this
    {
      bitbuf < Pow2(bitcount)
    }

    /** All bits added so far. */
    ghost function Written(): seq<bool>
      reads this
    {
      ByteBits(out) + Lsb(bitbuf, bitcount)
    }

    constructor ()
      ensures Valid() && out == [] && bitcount == 0
    {
      out, bitbuf, bitcount := [], 0, 0;
    }

    /** io_wbits_add_bits. */
    method AddBits(bits: nat, n: nat)
      requires Valid() && bits < Pow2(n)
      modifies this
      ensures Valid() && out == old(out) && bitcount == old(bitcount) + n
      ensures Written() == old(Written()) + Lsb(bits, n)
    {
      hide Lsb, Pow2, ByteBits;
      LsbJoin(bitbuf, bitcount, bits, n);
      JoinFits(bitbuf, bitcount, bits, n);
      bitbuf := bitbuf + bits * Pow2(bitcount);
      bitcount := bitcount + n;
    }

    /** io_wbits_flush_bits: whole bytes go out. */
    method Flush()
      requires Valid()
      modifies this
      ensures Valid() && bitcount == old(bitcount) % 8 && Written() == old(Written()) && old(out) <= out
      ensures old(bitcount) < 8 ==> out == old(out)
    {
      hide Lsb, Pow2, ByteBits, Mask, Shr;
      while bitcount >= 8
        invariant Valid() && bitcount % 8 == old(bitcount) % 8 && Written() == old(Written()) && old(out) <= out
        invariant old(bitcount) < 8 ==> out == old(out)
      {
        FlushStep(out, bitbuf, bitcount);
        out := out + [Mask(bitbuf, 8)];
        bitcount := bitcount - 8;
        bitbuf := Shr(bitbuf, 8);
      }
    }

    /** io_wbits_align_bitstream: zero bits up to the next byte boundary, then flush. */
    method Align() returns (ghost pad: nat)
      requires Valid()
      modifies this
      ensures Valid() && bitcount == 0 && old(out) <= out
      ensures pad < 8 && (old(bitcount) + pad) % 8 == 0
      ensures ByteBits(out) == old(Written()) + Lsb(0, pad)
    {
      hide ByteBits, Lsb, Pow2;
      var fill := (8 - bitcount % 8) % 8;
      pad := fill;
      LsbJoin(bitbuf, bitcount, 0, fill);
      ZeroFits(fill);
      JoinFits(bitbuf, bitcount, 0, fill);
      ghost var before := Written();
      bitcount := bitcount + fill;
      assert Written() == before + Lsb(0, fill);
      Flush();
      EmptyBuffer(bitbuf);
    }
  }

  lemma ZeroFits(n: nat)
    ensures 0 < Pow2(n)
  {
  }

  lemma JoinFits(v: nat, n: nat, w: nat, m: nat)
    requires v < Pow2(n) && w < Pow2(m)
    ensures v + w * Pow2(n) < Pow2(n + m)
  {
    Pow2Add(n, m);
    MulAtLeast(Pow2(m) - w, Pow2(n));
    assert Pow2(n) * Pow2(m) == w * Pow2(n) + (Pow2(m) - w) * Pow2(n);
  }

  lemma MaskIsLsb(v: nat)
    ensures Lsb(Mask(v, 8), 8) == Lsb(v, 8)
  {
    LsbOfFromLsb(Lsb(v, 8));
  }

  lemma FlushStep(out: seq<Byte>, bitbuf: nat, bitcount: nat)
    requires bitbuf < Pow2(bitcount) && bitcount >= 8
    ensures Mask(bitbuf, 8) < 256 && Shr(bitbuf, 8) < Pow2(bitcount - 8)
    ensures ByteBits(out + [Mask(bitbuf, 8)]) + Lsb(Shr(bitbuf, 8), bitcount - 8)
      == ByteBits(out) + Lsb(bitbuf, bitcount)
  {
    hide Shr, Pow2, Lsb, Mask;
    MaskIsLsb(bitbuf);
    Pow2Of8();
    var b := Mask(bitbuf, 8);
    LsbSplit(bitbuf, 8, bitcount - 8);
    ShrSmall(bitbuf, 8, bitcount - 8);
    ByteBitsAppend(out, [b]);
    assert ByteBits([b]) == Lsb(b, 8) + ByteBits([b][1..]);
  }

  // ----- The stored format ---------------------------------------------------------------------

  /** One stored block, starting and ending on a byte boundary. */
  function StoredBytes(last: bool, d: seq<Byte>): (r: seq<Byte>)
    requires |d| <= MAX_STORED
    ensures |r| == |d| + 5
  {
    [if last then 1 else 0] + (Le(|d|, 2) + Le(MAX_STORED - |d|, 2) + d)
  }

  /** A whole stream of stored blocks for x: full blocks, then a final shorter one. */
  function StoredStream(x: seq<Byte>): (r: seq<Byte>) {
    if |x| < MAX_STORED then StoredBytes(true, x)
    else StoredBytes(false, x[..MAX_STORED]) + StoredStream(x[MAX_STORED..])
  }

  function BlocksOf(x: seq<Byte>): (r: seq<Block>)
    ensures |r| >= 1
  {
    if |x| < MAX_STORED then [Stored(x)] else [Stored(x[..MAX_STORED])] + BlocksOf(x[MAX_STORED..])
  }

  /** deflate_compress_block_uncompressed on an aligned writer. */
  method CompressBlock(w: IoWBits, d: seq<Byte>, last: bool) returns (size: nat)
    requires w.Valid() && w.bitcount == 0 && |d| <= MAX_STORED
    modifies w
    ensures w.Valid() && w.bitcount == 0 && w.out == old(w.out) + StoredBytes(last, d)
    ensures size == |w.out| - |old(w.out)|
  {
    hide Lsb, ByteBits, Pow2;
    HeaderFits(last);
    ghost var before := w.out;
    ghost var w0 := w.Written();
    EmptyBuffer(w.bitbuf);
    w.AddBits(if last then 1 else 0, 1);
    w.AddBits(0, 2);
    w.Flush();
    ghost var pad := w.Align();
    HeaderByte(before, w.out, last, pad);
    w.out := w.out + Le(|d|, 2);
    w.out := w.out + Le(MAX_STORED - |d|, 2);
    w.out := w.out + d;
    assert w.out == before + StoredBytes(last, d);
    size := |d| + 5;
  }

  lemma HeaderFits(last: bool)
    ensures (if last then 1 else 0) < Pow2(1) && 0 < Pow2(2)
  {
  }

  /** The three header bits and their padding are one byte. */
  lemma HeaderByte(before: seq<Byte>, after: seq<Byte>, last: bool, pad: nat)
    requires pad < 8 && (3 + pad) % 8 == 0
    requires ByteBits(after) == ByteBits(before) + [] + Lsb(if last then 1 else 0, 1) + Lsb(0, 2) + Lsb(0, pad)
    ensures after == before + [if last then 1 else 0]
  {
    hide Lsb, ByteBits;
    var one: seq<Byte> := [if last then 1 else 0];
    HeaderBitsOf(last);
    ByteBitsAppend(before, one);
    assert ByteBits(after) == ByteBits(before + one) + [];
    BytesOfBits(after, before + one, []);
    assert |ByteBits(after)| == |ByteBits(before)| + 8;
  }

  lemma HeaderBitsOf(last: bool)
    ensures ByteBits([if last then 1 else 0]) == Lsb(if last then 1 else 0, 1) + Lsb(0, 2) + Lsb(0, 5)
  {
    var b: Byte := if last then 1 else 0;
    LsbJoin(b, 1, 0, 7);
    LsbJoin(0, 2, 0, 5);
    assert ByteBits([b]) == Lsb(b, 8) + ByteBits([b][1..]);
  }

  /** deflate_compress_stream: the bytes written are the stored blocks of x, and the reported size is their number. */
  method CompressStream(x: seq<Byte>) returns (out: seq<Byte>, total: nat)
    ensures out == StoredStream(x) && total == |out|
  {
    hide StoredStream, StoredBytes, Pow2;
    var w := new IoWBits();
    var pos := 0;
    var last := false;
    total := 0;
    assert x[0..] == x;
    while !last
      invariant 0 <= pos <= |x| && w.Valid() && w.bitcount == 0 && total == |w.out|
      invariant if last then w.out == StoredStream(x) else w.out + StoredStream(x[pos..]) == StoredStream(x)
      decreases !last, |x| - pos
    {
      var read := if |x| - pos < MAX_STORED then |x| - pos else MAX_STORED;
      var buf := x[pos..pos + read];
      NextChunk(w.out, x, pos, read);
      last := read < MAX_STORED;
      var size := CompressBlock(w, buf, last);
      total := total + size;
      pos := pos + read;
    }
    out := w.out;
  }

  lemma NextChunk(out: seq<Byte>, x: seq<Byte>, pos: nat, read: nat)
    requires pos <= |x| && read == if |x| - pos < MAX_STORED then |x| - pos else MAX_STORED
    ensures var buf := x[pos..pos + read];
            out + StoredStream(x[pos..]) ==
            if read < MAX_STORED then out + StoredBytes(true, buf)
              else out + StoredBytes(false, buf) + StoredStream(x[pos + read..])
  {
    hide StoredBytes;
    var rest, buf := x[pos..], x[pos..pos + read];
    assert read < MAX_STORED ==> buf == rest;
    assert read == MAX_STORED ==> buf == rest[..MAX_STORED] && x[pos + read..] == rest[MAX_STORED..];
  }

  // ----- Round trip ----------------------------------------------------------------------------

  lemma StoredEncodes(last: bool, d: seq<Byte>, rest: seq<Byte>, h: seq<Byte>)
    requires |d| <= MAX_STORED
    ensures Encodes(ByteBits(StoredBytes(last, d) + rest), last, Stored(d), h, ByteBits(rest))
  {
    hide Le, Lsb, BodyBits, TokensOk;
    var y := Le(|d|, 2) + Le(65535 - |d|, 2) + d;
    var one: seq<Byte> := [if last then 1 else 0];
    assert StoredBytes(last, d) + rest == one + (y + rest);
    WordsAndData(|d|, 65535 - |d|, d);
    var body := Lsb(|d|, 16) + Lsb(65535 - |d|, 16) + ByteBits(d);
    hide ByteBits;
    ByteBitsAppend(one, y + rest);
    ByteBitsAppend(y, rest);
    FirstByte(last);
    AfterFirstByte(ByteBits(one), body, ByteBits(rest));
  }

  lemma AfterFirstByte(one: seq<bool>, y: seq<bool>, rest: seq<bool>)
    requires |one| == 8 && |y| % 8 == 0 && |rest| % 8 == 0
    ensures var bits := one + (y + rest);
            && |bits| >= 3 && bits[0] == one[0] && bits[1..3] == one[1..3]
            && bits[3..][|bits[3..]| % 8..] == y + rest
  {
    var bits := one + (y + rest);
    var tail := bits[3..];
    assert |tail| % 8 == 5;
    assert tail[5..] == bits[8..];
  }

  lemma FirstByte(last: bool)
    ensures var b := ByteBits([if last then 1 else 0]); |b| == 8 && b[0] == last && b[1..3] == [false, false]
  {
    hide Lsb, ByteBits;
    HeaderBitsOf(last);
    TwoZeros();
    OneBitOf(last);
  }

  lemma TwoZeros()
    ensures Lsb(0, 2) == [false, false]
  {
    assert Lsb(0, 1) == [false] + Lsb(0, 0);
  }

  lemma OneBitOf(last: bool)
    ensures Lsb(if last then 1 else 0, 1) == [last]
  {
    assert Lsb(if last then 1 else 0, 1) == [last] + Lsb(0, 0);
  }

  /** The compressor's output, followed by anything, is a DEFLATE stream that stands for x. */
  lemma {:induction false} StoredIsStream(x: seq<Byte>, h: seq<Byte>, suffix: seq<Byte>)
    ensures Stream(ByteBits(StoredStream(x) + suffix), h, BlocksOf(x), ByteBits(suffix))
    ensures Output(h, BlocksOf(x)) == h + x
    ensures AllOk(BlocksOf(x))
    decreases |x|
  {
    hide Encodes, ByteBits, StoredBytes;
    var blocks := BlocksOf(x);
    if |x| < MAX_STORED {
      StoredEncodes(true, x, suffix, h);
      assert StreamRest(true, ByteBits(suffix), h, blocks, ByteBits(suffix));
      assert Output(h + x, blocks[1..]) == h + x;
    } else {
      var d, more := x[..MAX_STORED], x[MAX_STORED..];
      StoredIsStream(more, h + d, suffix);
      var rest := StoredStream(more) + suffix;
      assert StoredStream(x) + suffix == StoredBytes(false, d) + rest;
      StoredEncodes(false, d, rest, h);
      assert blocks[1..] == BlocksOf(more);
      assert StreamRest(false, ByteBits(rest), h, blocks, ByteBits(suffix));
      assert h + d + more == h + x;
    }
  }

  /** Decompressing what was compressed gives back the input, whatever its length. */
  method RoundTrip(x: seq<Byte>) returns (ok: bool, y: seq<Byte>, size: nat)
    ensures ok && y == x && size == |x|
  {
    hide Stream, Output, AllOk, StoredStream;
    var packed, _ := CompressStream(x);
    StoredIsStream(x, [], []);
    assert packed + [] == packed;
    var left;
    ok, y, size, left := Decompress(packed, BlocksOf(x), ByteBits([]));
    assert [] + x == x;
  }
}
