/** Byte source and the bit reader on top of it (brutal-io/mem.c, brutal-io/rbits.h). */
module BitReader {
  import opened Bits

  /** MAX_ENSURE for a 64-bit buffer. */
  const MAX_ENSURE: nat := 57

  class IoRBits {
    // The underlying byte reader.
    var data: seq<Byte>
    var pos: nat
    // Bits taken from it and not yet handed out, lowest first.
    var bitbuf: nat
    var bitcount: nat

    ghost predicate Valid()
      reads this
    {
      pos <= |data| && bitbuf < Pow2(bitcount)
    }

    /** Everything still to be read, as bits. */
    ghost function Rest(): seq<bool>
      requires Valid()
      reads this
    {
      Lsb(bitbuf, bitcount) + ByteBits(data[pos..])
    }

    constructor (data: seq<Byte>)
      ensures Valid() && this.data == data && pos == 0 && bitcount == 0
      ensures Rest() == ByteBits(data)
    {
      this.data, pos, bitbuf, bitcount := data, 0, 0, 0;
      new;
      assert data[0..] == data;
    }

    /** io_read on the byte reader itself: bypasses the bit buffer. */
    method Read(n: nat) returns (r: seq<Byte>)
      requires Valid()
      modifies `pos
      ensures Valid()
      ensures |r| == (if n <= |old(data[pos..])| then n else |old(data[pos..])|) && r == old(data[pos..])[..|r|]
      ensures data[pos..] == old(data[pos..])[|r|..]
      ensures old(data[pos..]) == r + data[pos..]
    {
      var k := if n <= |data| - pos then n else |data| - pos;
      r := data[pos..pos + k];
      pos := pos + k;
    }

    /** io_rbits_ensure_bits. The C code does not check for the end of the input, so it must not come too early. */
    method Ensure(n: nat)
      requires Valid() && n <= MAX_ENSURE && n <= |Rest()|
      modifies this
      ensures Valid() && data == old(data)
      ensures Rest() == old(Rest())
      ensures bitcount >= n
      ensures bitcount == old(bitcount) || bitcount < n + 8
      ensures old(bitcount) <= 64 ==> bitcount <= 64
    {
      hide Lsb, ByteBits, Pow2;
      while bitcount < n
        invariant Valid() && data == old(data)
        invariant Rest() == old(Rest())
        invariant bitcount == old(bitcount) || bitcount < n + 8
        decreases n - bitcount
      {
        assert |Rest()| == bitcount + 8 * |data[pos..]|;
        var b := data[pos];
        RefillStep(bitbuf, bitcount, data[pos..]);
        assert data[pos..][1..] == data[pos + 1..];
        pos := pos + 1;
        bitbuf := bitbuf + b * Pow2(bitcount);
        bitcount := bitcount + 8;
      }
    }

    /** io_rbits_pop_bits: get and remove. */
    method Pop(n: nat) returns (r: nat)
      requires Valid() && n <= bitcount
      modifies `bitbuf, `bitcount
      ensures Valid() && bitcount == old(bitcount) - n
      ensures r == FromLsb(old(Rest())[..n]) && r < Pow2(n)
      ensures Rest() == old(Rest())[n..]
    {
      LsbSplit(bitbuf, n, bitcount - n);
      ShrSmall(bitbuf, n, bitcount - n);
      assert old(Rest())[..n] == Lsb(bitbuf, n);
      r := Mask(bitbuf, n);
      bitbuf := Shr(bitbuf, n);
      bitcount := bitcount - n;
    }

    /** An ensure/pop group: at most seven bits stay in the buffer between groups. */
    method Take(n: nat) returns (r: nat)
      requires Valid() && n <= MAX_ENSURE && n <= |Rest()| && bitcount < 8
      modifies this
      ensures Valid() && data == old(data) && bitcount < 8
      ensures r == FromLsb(old(Rest())[..n]) && r < Pow2(n)
      ensures Rest() == old(Rest())[n..]
    {
      Ensure(n);
      r := Pop(n);
    }

    /** io_rbits_align. With at most seven bits buffered nothing but padding is lost, and the byte reader is in step. */
    method Align()
      requires Valid()
      modifies `bitbuf, `bitcount
      ensures Valid() && bitcount == old(bitcount) / 8 * 8
      ensures Rest() == old(Rest())[|old(Rest())| % 8..]
      ensures old(bitcount) < 8 ==> bitcount == 0 && Rest() == ByteBits(data[pos..])
    {
      var toFlush := bitcount % 8;
      assert |Rest()| == bitcount + 8 * |data[pos..]|;
      Eighths(bitcount, |data[pos..]|);
      hide Lsb, ByteBits;
      var _ := Pop(toFlush);
      assert bitcount == 0 ==> Lsb(bitbuf, bitcount) == [];
    }
  }

  lemma Eighths(n: nat, k: nat)
    ensures (n + 8 * k) % 8 == n % 8 && n - n % 8 == n / 8 * 8 && n % 8 <= n && (n < 8 ==> n % 8 == n)
  {
  }

  lemma JoinBound(v: nat, p: nat, b: Byte)
    requires v < p
    ensures v + b * p < p * 256
  {
    MulAtLeast(256 - b, p);
    assert p * 256 == b * p + (256 - b) * p;
  }

  lemma {:induction false} MulAtLeast(k: nat, p: nat)
    requires k >= 1
    ensures k * p >= p
  {
    if k > 1 {
      MulAtLeast(k - 1, p);
      assert k * p == (k - 1) * p + p;
    }
  }

  /** Appending one byte to the buffer moves its bits from the input to the buffer. */
  lemma RefillStep(bitbuf: nat, bitcount: nat, rest: seq<Byte>)
    requires bitbuf < Pow2(bitcount) && rest != []
    ensures bitbuf + rest[0] * Pow2(bitcount) < Pow2(bitcount + 8)
    ensures Lsb(bitbuf + rest[0] * Pow2(bitcount), bitcount + 8) + ByteBits(rest[1..])
      == Lsb(bitbuf, bitcount) + ByteBits(rest)
  {
    hide Pow2, Lsb;
    LsbJoin(bitbuf, bitcount, rest[0], 8);
    Pow2Add(bitcount, 8);
    Pow2Of8();
    JoinBound(bitbuf, Pow2(bitcount), rest[0]);
    assert ByteBits(rest) == Lsb(rest[0], 8) + ByteBits(rest[1..]);
  }

  lemma Pow2Of8()
    ensures Pow2(8) == 256
  {
    assert Pow2(4) == 16;
    Pow2Add(4, 4);
  }
}
