/** CRC-32 (brutal-hash/crc32.c): nibble table against the bit-serial definition of section 8 of RFC 1952. */
module Crc32 {
  import opened Bits
  import opened Words

  const POLYNOMIAL: bv32 := 0xEDB88320
  const ALL_ONES: bv32 := 0xFFFFFFFF

  /** crc32tab. */
  function Tab(n: bv32): bv32 {
    if n == 0 then 0x00000000 else if n == 1 then 0x1DB71064 else if n == 2 then 0x3B6E20C8
    else if n == 3 then 0x26D930AC else if n == 4 then 0x76DC4190 else if n == 5 then 0x6B6B51F4
    else if n == 6 then 0x4DB26158 else if n == 7 then 0x5005713C else if n == 8 then 0xEDB88320
    else if n == 9 then 0xF00F9344 else if n == 10 then 0xD6D6A3E8 else if n == 11 then 0xCB61B38C
    else if n == 12 then 0x9B64C2B0 else if n == 13 then 0x86D3D2D4 else if n == 14 then 0xA00AE278
    else 0xBDBDF21C
  }

  /** Division by the polynomial, one bit. */
  function BitStep(c: bv32): bv32 {
    if Odd(c) then Xor(Half(c), POLYNOMIAL) else Half(c)
  }

  /** Four bits at once, by table. */
  function NibbleStep(c: bv32): bv32 {
    Tab(c & 0xF) ^ (c >> 4)
  }

  lemma Nibbles(n: bv32)
    requires n < 16
    ensures n == 0 || n == 1 || n == 2 || n == 3 || n == 4 || n == 5 || n == 6 || n == 7
         || n == 8 || n == 9 || n == 10 || n == 11 || n == 12 || n == 13 || n == 14 || n == 15
  {
  }

  /** One table look-up is four steps of the division: for each of the sixteen nibbles the branches are known. */
  lemma NibbleIsFourBits(c: bv32)
    ensures NibbleStep(c) == BitStep(BitStep(BitStep(BitStep(c))))
  {
    Nibbles(c & 0xF);
    if c & 0xF == 0 {
      assert NibbleStep(c) == BitStep(BitStep(BitStep(BitStep(c))));
    } else if c & 0xF == 1 {
      assert NibbleStep(c) == BitStep(BitStep(BitStep(BitStep(c))));
    } else if c & 0xF == 2 {
      assert NibbleStep(c) == BitStep(BitStep(BitStep(BitStep(c))));
    } else if c & 0xF == 3 {
      assert NibbleStep(c) == BitStep(BitStep(BitStep(BitStep(c))));
    } else if c & 0xF == 4 {
      assert NibbleStep(c) == BitStep(BitStep(BitStep(BitStep(c))));
    } else if c & 0xF == 5 {
      assert NibbleStep(c) == BitStep(BitStep(BitStep(BitStep(c))));
    } else if c & 0xF == 6 {
      assert NibbleStep(c) == BitStep(BitStep(BitStep(BitStep(c))));
    } else if c & 0xF == 7 {
      assert NibbleStep(c) == BitStep(BitStep(BitStep(BitStep(c))));
    } else if c & 0xF == 8 {
      assert NibbleStep(c) == BitStep(BitStep(BitStep(BitStep(c))));
    } else if c & 0xF == 9 {
      assert NibbleStep(c) == BitStep(BitStep(BitStep(BitStep(c))));
    } else if c & 0xF == 10 {
      assert NibbleStep(c) == BitStep(BitStep(BitStep(BitStep(c))));
    } else if c & 0xF == 11 {
      assert NibbleStep(c) == BitStep(BitStep(BitStep(BitStep(c))));
    } else if c & 0xF == 12 {
      assert NibbleStep(c) == BitStep(BitStep(BitStep(BitStep(c))));
    } else if c & 0xF == 13 {
      assert NibbleStep(c) == BitStep(BitStep(BitStep(BitStep(c))));
    } else if c & 0xF == 14 {
      assert NibbleStep(c) == BitStep(BitStep(BitStep(BitStep(c))));
    } else if c & 0xF == 15 {
      assert NibbleStep(c) == BitStep(BitStep(BitStep(BitStep(c))));
    }
  }

  /** One message byte, bit by bit. */
  function ByteBySerial(c: bv32, b: Byte): bv32 {
    var x := Xor(c, Word(b));
    BitStep(BitStep(BitStep(BitStep(BitStep(BitStep(BitStep(BitStep(x))))))))
  }

  /** The CRC register after a message. */
  function Register(c: bv32, s: seq<Byte>): bv32
    decreases |s|
  {
    if s == [] then c else Register(ByteBySerial(c, s[0]), s[1..])
  }

  /** The checksum of a message. */
  function Crc(s: seq<Byte>): bv32 {
    Xor(Register(ALL_ONES, s), ALL_ONES)
  }

  /** A message may be fed in pieces. */
  lemma {:induction false} RegisterAppend(c: bv32, a: seq<Byte>, b: seq<Byte>)
    ensures Register(c, a + b) == Register(Register(c, a), b)
    decreases |a|
  {
    hide ByteBySerial;
    if a == [] {
      assert a + b == b;
    } else {
      assert (a + b)[1..] == a[1..] + b;
      RegisterAppend(ByteBySerial(c, a[0]), a[1..], b);
    }
  }

  /** One message byte by two table look-ups. */
  function ByteByTable(c: bv32, b: Byte): bv32 {
    NibbleStep(NibbleStep(Xor(c, Word(b))))
  }

  lemma TableIsSerial(c: bv32, b: Byte)
    ensures ByteByTable(c, b) == ByteBySerial(c, b)
  {
    hide BitStep, NibbleStep;
    var x := Xor(c, Word(b));
    NibbleIsFourBits(x);
    NibbleIsFourBits(NibbleStep(x));
  }

  lemma RegisterOn(c: bv32, data: seq<Byte>, n: nat)
    requires n < |data|
    ensures Register(c, data[n..]) == Register(ByteBySerial(c, data[n]), data[n + 1..])
  {
    hide ByteBySerial;
    assert data[n..][1..] == data[n + 1..];
  }

  /** crc32_impl. */
  method Update(crc: bv32, data: seq<Byte>) returns (r: bv32)
    ensures r == Register(crc, data)
  {
    assert forall c :: Register(c, []) == c;
    hide ByteBySerial, ByteByTable, Register;
    r := crc;
    var n: nat := 0;
    assert data[0..] == data;
    while n < |data|
      invariant n <= |data|
      invariant Register(r, data[n..]) == Register(crc, data)
    {
      RegisterOn(r, data, n);
      TableIsSerial(r, data[n]);
      r := ByteByTable(r, data[n]);
      n := n + 1;
    }
    assert data[n..] == [];
  }

  /** The checksumming reader and writer wrappers: state of a running checksum. */
  class Checksum {
    var crc: bv32
    var count: nat
    /** Everything that passed through. */
    ghost var seen: seq<Byte>

    ghost predicate Valid()
      reads this
    {
      crc == Register(ALL_ONES, seen) && count == |seen|
    }

    constructor ()
      ensures Valid() && seen == []
    {
      crc, count, seen := ALL_ONES, 0, [];
    }

    /** crc32_write_impl and crc32_read_impl: one chunk passes. */
    method Pass(chunk: seq<Byte>)
      requires Valid()
      modifies this
      ensures Valid() && seen == old(seen) + chunk
    {
      RegisterAppend(ALL_ONES, seen, chunk);
      crc := Update(crc, chunk);
      count := count + |chunk|;
      seen := seen + chunk;
    }

    /** crc32_get. */
    method Get() returns (r: bv32)
      requires Valid()
      ensures r == Crc(seen)
    {
      r := Xor(crc, ALL_ONES);
    }
  }
}
