/** What the checksum is good for: it is linear, leaves a fixed residue, and notices every burst of up to 32 bits. */
module CrcLaws {
  import opened Bits
  import opened Words
  import opened Crc32

  // ----- The division on bit strings -----------------------------------------------------------

  /** The divisor without its leading term; the coefficient of x^31 comes first. */
  function Divisor(): (r: seq<bool>)
    ensures |r| == 32
  {
    WordBits(POLYNOMIAL, 32)
  }

  /** One message bit enters the register. */
  function StepBits(c: seq<bool>, b: bool): (r: seq<bool>)
    requires |c| == 32
    ensures |r| == 32
  {
    Xors(c[1..] + [false], if c[0] != b then Divisor() else Zeros(32))
  }

  function Feed(c: seq<bool>, m: seq<bool>): (r: seq<bool>)
    requires |c| == 32
    ensures |r| == 32
    decreases |m|
  {
    if m == [] then c else Feed(StepBits(c, m[0]), m[1..])
  }

  lemma {:induction false} FeedAppend(c: seq<bool>, m: seq<bool>, n: seq<bool>)
    requires |c| == 32
    ensures Feed(c, m + n) == Feed(Feed(c, m), n)
    decreases |m|
  {
    hide StepBits;
    if m == [] {
      assert m + n == n;
    } else {
      assert (m + n)[1..] == m[1..] + n;
      FeedAppend(StepBits(c, m[0]), m[1..], n);
    }
  }

  lemma StepLinear(a: seq<bool>, b: seq<bool>, x: bool, y: bool)
    requires |a| == 32 && |b| == 32
    ensures StepBits(Xors(a, b), x != y) == Xors(StepBits(a, x), StepBits(b, y))
  {
    hide Divisor;
  }

  /** The register is linear in its start and in the message. */
  lemma {:induction false} FeedLinear(a: seq<bool>, b: seq<bool>, m: seq<bool>, n: seq<bool>)
    requires |a| == 32 && |b| == 32 && |m| == |n|
    ensures Feed(Xors(a, b), Xors(m, n)) == Xors(Feed(a, m), Feed(b, n))
    decreases |m|
  {
    hide StepBits;
    if m != [] {
      StepLinear(a, b, m[0], n[0]);
      XorSplit(m, n);
      FeedLinear(StepBits(a, m[0]), StepBits(b, n[0]), m[1..], n[1..]);
    }
  }

  lemma StepShifts(c: seq<bool>, m: seq<bool>, z: seq<bool>)
    requires |c| == 32 && 0 < |m| && |m| + |z| == 32
    ensures StepBits(Xors(c, m + z), false) == Xors(StepBits(c, m[0]), m[1..] + (z + [false]))
  {
    hide Divisor;
    assert (m + z)[1..] + [false] == m[1..] + (z + [false]);
  }

  /** Adding up to 32 message bits first and dividing then is feeding them one by one. */
  lemma {:induction false} AheadIsFeed(c: seq<bool>, m: seq<bool>)
    requires |c| == 32 && |m| <= 32
    ensures Feed(Xors(c, m + Zeros(32 - |m|)), Zeros(|m|)) == Feed(c, m)
    decreases |m|
  {
    hide StepBits;
    if m == [] {
      assert Xors(c, m + Zeros(32)) == c;
    } else {
      var z := Zeros(32 - |m|);
      StepShifts(c, m, z);
      assert z + [false] == Zeros(32 - |m[1..]|);
      assert Zeros(|m|)[1..] == Zeros(|m[1..]|);
      AheadIsFeed(StepBits(c, m[0]), m[1..]);
    }
  }

  // ----- The table-driven register is the division ---------------------------------------------

  lemma StepIsBits(c: bv32)
    ensures WordBits(BitStep(c), 32) == StepBits(WordBits(c, 32), false)
  {
    hide Half, Xor, Odd;
    ShiftBits(c);
    XorBits(Half(c), POLYNOMIAL, 32);
    FirstBit(c);
    ghost var h := WordBits(Half(c), 32);
    assert Xors(h, Zeros(32)) == h;
  }

  lemma FirstBit(c: bv32)
    ensures WordBits(c, 32)[0] == Odd(c)
  {
    hide Odd, Half;
  }

  lemma FeedZero(c: seq<bool>, n: nat)
    requires |c| == 32 && n > 0
    ensures Feed(c, Zeros(n)) == Feed(StepBits(c, false), Zeros(n - 1))
  {
    hide StepBits;
    assert Zeros(n)[1..] == Zeros(n - 1);
  }

  ghost function Steps(c: bv32, n: nat): bv32
    decreases n
  {
    if n == 0 then c else Steps(BitStep(c), n - 1)
  }

  lemma {:induction false} StepsAreBits(c: bv32, n: nat)
    ensures WordBits(Steps(c, n), 32) == Feed(WordBits(c, 32), Zeros(n))
    decreases n
  {
    hide BitStep, StepBits, WordBits;
    if n > 0 {
      StepIsBits(c);
      FeedZero(WordBits(c, 32), n);
      StepsAreBits(BitStep(c), n - 1);
    }
  }

  lemma ByteIsSteps(c: bv32, b: Byte)
    ensures ByteBySerial(c, b) == Steps(Xor(c, Word(b)), 8)
  {
    hide BitStep, Xor, Word;
    var x := Xor(c, Word(b));
    var y := BitStep(BitStep(BitStep(BitStep(x))));
    assert Steps(x, 8) == Steps(y, 4);
    assert Steps(y, 4) == BitStep(BitStep(BitStep(BitStep(y))));
  }

  lemma {:induction false} ZeroBits(n: nat)
    ensures Lsb(0, n) == Zeros(n)
  {
    if n > 0 {
      ZeroBits(n - 1);
      assert Zeros(n) == [false] + Zeros(n - 1);
    }
  }

  lemma ByteSmall(b: Byte)
    ensures b < Pow2(31) && Shr(b, 8) == 0
  {
    hide Shr;
    LowByte(b);
    assert Pow2(8) == 256;
    Pow2Add(8, 23);
    hide Pow2;
    assert 256 * Pow2(23) >= 256;
  }

  lemma ByteWord(b: Byte)
    ensures WordBits(Word(b), 32) == Lsb(b, 8) + Zeros(24)
  {
    hide Odd, Half, Below, Word, WordBits, IsPower, Lsb, Pow2, Shr;
    ByteSmall(b);
    TopPower();
    WordOf(b, 0x8000_0000, 31);
    HighZero(Word(b), 0x8000_0000, 31);
    LsbSplit(b, 8, 23);
    ZeroBits(23);
    assert Zeros(24) == Zeros(23) + [false];
  }

  lemma ByteIsFeed(c: bv32, b: Byte)
    ensures WordBits(ByteBySerial(c, b), 32) == Feed(WordBits(c, 32), Lsb(b, 8))
  {
    hide Odd, Half, Xor, Word, WordBits, ByteBySerial, Feed, Lsb, Steps;
    ByteIsSteps(c, b);
    StepsAreBits(Xor(c, Word(b)), 8);
    XorBits(c, Word(b), 32);
    ByteWord(b);
    AheadIsFeed(WordBits(c, 32), Lsb(b, 8));
  }

  /** The register after a message is the division of the message's bits. */
  lemma {:induction false} RegisterIsFeed(c: bv32, s: seq<Byte>)
    ensures WordBits(Register(c, s), 32) == Feed(WordBits(c, 32), ByteBits(s))
    decreases |s|
  {
    hide ByteBySerial, Feed, Lsb, WordBits;
    if s == [] {
      assert Feed(WordBits(c, 32), []) == WordBits(c, 32) by { FeedNothing(WordBits(c, 32)); }
    } else {
      ByteIsFeed(c, s[0]);
      FeedAppend(WordBits(c, 32), Lsb(s[0], 8), ByteBits(s[1..]));
      RegisterIsFeed(ByteBySerial(c, s[0]), s[1..]);
    }
  }

  lemma FeedNothing(c: seq<bool>)
    requires |c| == 32
    ensures Feed(c, []) == c
  {
  }

  // ----- The residue ---------------------------------------------------------------------------

  /** A register fed with its own bits is cleared. */
  lemma SelfClears(r: seq<bool>)
    requires |r| == 32
    ensures Feed(r, r) == Zeros(32)
  {
    hide Feed;
    AheadIsFeed(r, r);
    assert Xors(r, r + Zeros(0)) == Zeros(32);
    ZerosStay(32);
  }

  lemma {:induction false} ZerosStay(n: nat)
    ensures Feed(Zeros(32), Zeros(n)) == Zeros(32)
  {
    if n > 0 {
      FeedZero(Zeros(32), n);
      assert StepBits(Zeros(32), false) == Zeros(32);
      ZerosStay(n - 1);
    }
  }

  /** Fed with its bits xored with f, a register forgets what it held. */
  lemma Forgets(r: seq<bool>, f: seq<bool>)
    requires |r| == 32 && |f| == 32
    ensures Feed(r, Xors(r, f)) == Feed(Zeros(32), f)
  {
    hide Feed;
    assert Xors(r, Zeros(32)) == r;
    FeedLinear(r, Zeros(32), r, f);
    SelfClears(r);
    assert Xors(Zeros(32), Feed(Zeros(32), f)) == Feed(Zeros(32), f);
  }

  lemma WordOfOnes()
    ensures Word(255) == 0xFF
  {
    assert Word(1) == 1;
    assert Word(3) == 3;
    assert Word(7) == 7;
    assert Word(15) == 0xF;
    assert Word(31) == 0x1F;
    assert Word(63) == 0x3F;
    assert Word(127) == 0x7F;
  }

  function OnesStep(c: bv32): bv32 {
    NibbleStep(NibbleStep(Xor(c, 0xFF)))
  }

  lemma OnesByTable()
    ensures OnesStep(0) == 0x2D02EF8D
    ensures OnesStep(0x2D02EF8D) == 0xBE2612FF
    ensures OnesStep(0xBE2612FF) == 0x00BE2612
    ensures OnesStep(0x00BE2612) == 0xDEBB20E3
  {
  }

  lemma ByOnes(c: bv32)
    ensures ByteBySerial(c, 255) == OnesStep(c)
  {
    hide NibbleStep, Xor, ByteBySerial;
    WordOfOnes();
    TableIsSerial(c, 255);
  }

  lemma {:induction false} RegisterByOnes(c: bv32, n: nat)
    requires n > 0
    ensures Register(c, Ones(n)) == Register(OnesStep(c), Ones(n - 1))
  {
    hide ByteBySerial, OnesStep;
    ByOnes(c);
    assert Ones(n)[1..] == Ones(n - 1);
  }

  function Ones(n: nat): seq<Byte> {
    seq(n, _ => 255)
  }

  lemma FourOnes()
    ensures Register(0, [255, 255, 255, 255]) == 0xDEBB20E3
  {
    hide OnesStep, ByteBySerial;
    OnesByTable();
    assert [255, 255, 255, 255] == Ones(4);
    RegisterByOnes(0, 4);
    RegisterByOnes(0x2D02EF8D, 3);
    RegisterByOnes(0xBE2612FF, 2);
    RegisterByOnes(0x00BE2612, 1);
  }

  lemma ByteOfOnes()
    ensures Lsb(255, 8) == Trues(8)
  {
    assert Lsb(15, 4) == [true] + Lsb(7, 3);
    assert Lsb(15, 4) == [true, true, true, true];
    assert Lsb(255, 8) == [true, true, true, true] + Lsb(15, 4);
  }

  lemma OnesBits()
    ensures ByteBits([255, 255, 255, 255]) == Trues(32)
  {
    hide Lsb;
    ByteOfOnes();
    assert ByteBits([255]) == Trues(8);
    assert ByteBits([255, 255]) == Trues(16);
    assert ByteBits([255, 255, 255]) == Trues(24);
  }

  /** The division of 32 ones, from an empty register. */
  lemma OnesFed()
    ensures Feed(Zeros(32), WordBits(ALL_ONES, 32)) == WordBits(0xDEBB20E3, 32)
  {
    hide Feed, WordBits, Register;
    AllOnesBits();
    OnesBits();
    FourOnes();
    RegisterIsFeed(0, [255, 255, 255, 255]);
    NoBits(32);
  }

  lemma WordBytes(v: bv32)
    ensures ByteBits(Le(Number(v), 4)) == WordBits(v, 32)
  {
    hide Lsb, WordBits, Le, ByteBits;
    LeBits(Number(v), 4);
    NumberBits(v);
  }

  /** A message followed by its own checksum always has the same checksum. */
  lemma Residue(s: seq<Byte>)
    ensures Crc(s + Le(Number(Crc(s)), 4)) == 0x2144DF1C
  {
    hide Feed, WordBits, Register, Le, Number, ByteBits, Xor;
    var c, t := Register(ALL_ONES, s), Le(Number(Crc(s)), 4);
    RegisterAppend(ALL_ONES, s, t);
    RegisterIsFeed(c, t);
    WordBytes(Crc(s));
    XorBits(c, ALL_ONES, 32);
    Forgets(WordBits(c, 32), WordBits(ALL_ONES, 32));
    OnesFed();
    SameBits(Register(c, t), 0xDEBB20E3);
    ResidueWord();
  }

  lemma ResidueWord()
    ensures Xor(0xDEBB20E3, ALL_ONES) == 0x2144DF1C
  {
  }

  /** The checksum of the empty message: the start and the final inversion cancel. */
  lemma EmptyMessage()
    ensures Crc([]) == 0
  {
  }

  // ----- Bursts --------------------------------------------------------------------------------

  lemma LastTerm()
    ensures Divisor()[31]
  {
    hide IsPower, WordBits;
    TopPower();
    HighOne(POLYNOMIAL, 0x8000_0000, 31);
  }

  /** A register that holds something still does after a division step. */
  lemma StepAlive(c: seq<bool>)
    requires |c| == 32 && StepBits(c, false) == Zeros(32)
    ensures c == Zeros(32)
  {
    hide Divisor;
    LastTerm();
    var d := c[1..] + [false];
    assert StepBits(c, false)[31] == c[0];
    assert !c[0];
    forall i | 0 <= i < 32 ensures c[i] == Zeros(32)[i] {
      assert i > 0 ==> StepBits(c, false)[i - 1] == d[i - 1];
    }
  }

  lemma {:induction false} FeedAlive(c: seq<bool>, n: nat)
    requires |c| == 32 && Feed(c, Zeros(n)) == Zeros(32)
    ensures c == Zeros(32)
    decreases n
  {
    hide StepBits;
    if n > 0 {
      FeedZero(c, n);
      FeedAlive(StepBits(c, false), n - 1);
      StepAlive(c);
    }
  }

  /** Up to 32 bits, not all zero, leave something in an empty register, whatever zeros surround them. */
  lemma BurstLeaves(i: nat, w: seq<bool>, j: nat)
    requires |w| <= 32 && Feed(Zeros(32), Zeros(i) + w + Zeros(j)) == Zeros(32)
    ensures w == Zeros(|w|)
  {
    hide Feed;
    FeedAppend(Zeros(32), Zeros(i) + w, Zeros(j));
    FeedAppend(Zeros(32), Zeros(i), w);
    ZerosStay(i);
    FeedAlive(Feed(Zeros(32), w), j);
    AheadIsFeed(Zeros(32), w);
    var v := w + Zeros(32 - |w|);
    assert Xors(Zeros(32), v) == v;
    FeedAlive(v, |w|);
    assert w == v[..|w|];
  }

  /** a and b agree outside of 32 consecutive bits. */
  ghost predicate Burst(a: seq<bool>, b: seq<bool>, i: nat) {
    && |a| == |b|
    && forall k | 0 <= k < |a| && !(i <= k < i + 32) :: a[k] == b[k]
  }

  lemma BurstShape(a: seq<bool>, b: seq<bool>, i: nat)
    requires Burst(a, b, i) && i <= |a|
    ensures var e := if i + 32 <= |a| then i + 32 else |a|;
            Xors(a, b) == Zeros(i) + Xors(a, b)[i..e] + Zeros(|a| - e)
  {
  }

  lemma BurstFed(c: seq<bool>, a: seq<bool>, b: seq<bool>, i: nat)
    requires |c| == 32 && Burst(a, b, i) && Feed(c, a) == Feed(c, b)
    ensures a == b
  {
    if i <= |a| {
      hide Feed;
      FeedLinear(c, c, a, b);
      assert Xors(c, c) == Zeros(32);
      assert Xors(Feed(c, a), Feed(c, b)) == Zeros(32);
      BurstShape(a, b, i);
      var e := if i + 32 <= |a| then i + 32 else |a|;
      BurstLeaves(i, Xors(a, b)[i..e], |a| - e);
      assert Xors(a, b) == Zeros(|a|);
      forall k | 0 <= k < |a| ensures a[k] == b[k] {
        assert Xors(a, b)[k] == Zeros(|a|)[k];
      }
    }
  }

  /** Messages of one length that differ, but only within 32 consecutive bits, have different checksums. */
  lemma BurstNoticed(s: seq<Byte>, t: seq<Byte>, i: nat)
    requires Burst(ByteBits(s), ByteBits(t), i) && Crc(s) == Crc(t)
    ensures s == t
  {
    hide Feed, WordBits, Register, ByteBits, Xor;
    var c := WordBits(ALL_ONES, 32);
    Inverted(Register(ALL_ONES, s), Register(ALL_ONES, t));
    RegisterIsFeed(ALL_ONES, s);
    RegisterIsFeed(ALL_ONES, t);
    BurstFed(c, ByteBits(s), ByteBits(t), i);
    assert ByteBits(t) + [] == ByteBits(t);
    BytesOfBits(s, t, []);
    assert |s| == |t|;
  }

  lemma Inverted(x: bv32, y: bv32)
    requires Xor(x, ALL_ONES) == Xor(y, ALL_ONES)
    ensures x == y
  {
  }
}
