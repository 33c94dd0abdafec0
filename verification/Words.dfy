/** 32-bit words, their bits and the numbers they stand for. */
module Words {
  import opened Bits

  // The operations on words, by name.

  predicate Odd(v: bv32) {
    v & 1 == 1
  }

  function Half(v: bv32): bv32 {
    v >> 1
  }

  function Xor(x: bv32, y: bv32): bv32 {
    x ^ y
  }

  predicate Below(x: bv32, y: bv32) {
    x < y
  }

  /** The n low bits of a word, least significant first. */
  function WordBits(v: bv32, n: nat): (r: seq<bool>)
    ensures |r| == n
  {
    if n == 0 then [] else [Odd(v)] + WordBits(Half(v), n - 1)
  }

  /** The number a word stands for. */
  function Number(v: bv32): (r: nat)
    ensures r < Pow2(32)
  {
    FromLsb(WordBits(v, 32))
  }

  /** The word that stands for a number: twice the word of its half, and its last bit. */
  function Word(n: nat): bv32 {
    if n == 0 then 0 else if n % 2 == 1 then DoubleAndOne(Word(n / 2)) else Double(Word(n / 2))
  }

  function Double(v: bv32): bv32 {
    v << 1
  }

  function DoubleAndOne(v: bv32): bv32 {
    (v << 1) | 1
  }

  function Xors(a: seq<bool>, b: seq<bool>): (r: seq<bool>)
    requires |a| == |b|
    ensures |r| == |a|
  {
    seq(|a|, i requires 0 <= i < |a| => a[i] != b[i])
  }

  function Zeros(n: nat): (r: seq<bool>)
    ensures |r| == n
  {
    seq(n, _ => false)
  }

  // ----- Bits of operations --------------------------------------------------------------------

  lemma XorHalf(x: bv32, y: bv32)
    ensures Odd(Xor(x, y)) == (Odd(x) != Odd(y))
    ensures Half(Xor(x, y)) == Xor(Half(x), Half(y))
  {
  }

  lemma {:induction false} XorBits(x: bv32, y: bv32, n: nat)
    ensures WordBits(Xor(x, y), n) == Xors(WordBits(x, n), WordBits(y, n))
    decreases n
  {
    hide Odd, Half, Xor;
    if n > 0 {
      XorHalf(x, y);
      XorBits(Half(x), Half(y), n - 1);
      XorSplit(WordBits(x, n), WordBits(y, n));
    }
  }

  lemma XorSplit(a: seq<bool>, b: seq<bool>)
    requires |a| == |b| > 0
    ensures Xors(a, b) == [a[0] != b[0]] + Xors(a[1..], b[1..])
  {
  }

  /** m is 2^n. */
  ghost predicate IsPower(m: bv32, n: nat) {
    if n == 0 then m == 1 else !Odd(m) && IsPower(Half(m), n - 1)
  }

  lemma HalfBelow(v: bv32, m: bv32)
    requires Below(v, m) && !Odd(m)
    ensures Below(Half(v), Half(m))
  {
  }

  lemma BelowOne(v: bv32)
    requires Below(v, 1)
    ensures v == 0 && !Odd(v)
  {
  }

  /** A word below 2^n has no bit beyond the n-th. */
  lemma {:induction false} HighZero(v: bv32, m: bv32, n: nat)
    requires Below(v, m) && IsPower(m, n)
    ensures WordBits(v, n + 1) == WordBits(v, n) + [false]
    decreases n
  {
    hide Odd, Half, Below;
    if n == 0 {
      BelowOne(v);
    } else {
      HalfBelow(v, m);
      HighZero(Half(v), Half(m), n - 1);
    }
  }

  lemma TopPower()
    ensures IsPower(0x8000_0000, 31)
  {
    assert IsPower(0x1, 0);
    assert IsPower(0x2, 1);
    assert IsPower(0x4, 2);
    assert IsPower(0x8, 3);
    assert IsPower(0x10, 4);
    assert IsPower(0x20, 5);
    assert IsPower(0x40, 6);
    assert IsPower(0x80, 7);
    assert IsPower(0x100, 8);
    assert IsPower(0x200, 9);
    assert IsPower(0x400, 10);
    assert IsPower(0x800, 11);
    assert IsPower(0x1000, 12);
    assert IsPower(0x2000, 13);
    assert IsPower(0x4000, 14);
    assert IsPower(0x8000, 15);
    assert IsPower(0x10000, 16);
    assert IsPower(0x20000, 17);
    assert IsPower(0x40000, 18);
    assert IsPower(0x80000, 19);
    assert IsPower(0x100000, 20);
    assert IsPower(0x200000, 21);
    assert IsPower(0x400000, 22);
    assert IsPower(0x800000, 23);
    assert IsPower(0x1000000, 24);
    assert IsPower(0x2000000, 25);
    assert IsPower(0x4000000, 26);
    assert IsPower(0x8000000, 27);
    assert IsPower(0x10000000, 28);
    assert IsPower(0x20000000, 29);
    assert IsPower(0x40000000, 30);
  }

  lemma HalfIsSmall(v: bv32)
    ensures Below(Half(v), 0x8000_0000)
  {
  }

  lemma ShiftBits(v: bv32)
    ensures WordBits(Half(v), 32) == WordBits(v, 32)[1..] + [false]
  {
    hide Odd, Half, Below, IsPower;
    TopPower();
    HalfIsSmall(v);
    HighZero(Half(v), 0x8000_0000, 31);
  }

  // ----- A word is given by its bits -----------------------------------------------------------

  lemma HalvesSame(x: bv32, y: bv32)
    requires Half(x) == Half(y) && Odd(x) == Odd(y)
    ensures x == y
  {
  }

  lemma FirstBits(x: bv32, y: bv32, n: nat)
    requires n > 0 && WordBits(x, n) == WordBits(y, n)
    ensures Odd(x) == Odd(y) && WordBits(Half(x), n - 1) == WordBits(Half(y), n - 1)
  {
    hide Odd, Half;
    assert WordBits(x, n)[0] == WordBits(y, n)[0];
    assert WordBits(x, n)[1..] == WordBits(y, n)[1..];
  }

  lemma {:induction false} BitsSame(x: bv32, y: bv32, m: bv32, n: nat)
    requires Below(x, m) && Below(y, m) && IsPower(m, n) && WordBits(x, n) == WordBits(y, n)
    ensures x == y
    decreases n
  {
    hide Odd, Half, Below, WordBits;
    if n == 0 {
      BelowOne(x);
      BelowOne(y);
    } else {
      HalfBelow(x, m);
      HalfBelow(y, m);
      FirstBits(x, y, n);
      BitsSame(Half(x), Half(y), Half(m), n - 1);
      HalvesSame(x, y);
    }
  }

  lemma SameBits(x: bv32, y: bv32)
    requires WordBits(x, 32) == WordBits(y, 32)
    ensures x == y
  {
    hide Odd, Half, Below, WordBits, IsPower;
    TopPower();
    HalfIsSmall(x);
    HalfIsSmall(y);
    FirstBits(x, y, 32);
    BitsSame(Half(x), Half(y), 0x8000_0000, 31);
    HalvesSame(x, y);
  }

  // ----- Numbers -------------------------------------------------------------------------------

  lemma NumberBits(v: bv32)
    ensures Lsb(Number(v), 32) == WordBits(v, 32)
  {
    LsbOfFromLsb(WordBits(v, 32));
  }

  lemma DoubleOdd(v: bv32)
    ensures !Odd(Double(v)) && Odd(DoubleAndOne(v))
  {
  }

  lemma DoubleHalf(v: bv32)
    requires Below(v, 0x8000_0000)
    ensures Half(Double(v)) == v
  {
  }

  lemma DoubleAndOneHalf(v: bv32)
    requires Below(v, 0x8000_0000)
    ensures Half(DoubleAndOne(v)) == v
  {
  }

  lemma DoubleBelow(v: bv32, m: bv32)
    requires !Odd(m) && Below(v, Half(m))
    ensures Below(Double(v), m)
  {
  }

  lemma DoubleAndOneBelow(v: bv32, m: bv32)
    requires !Odd(m) && Below(v, Half(m))
    ensures Below(DoubleAndOne(v), m)
  {
  }

  lemma BelowHalf(v: bv32, m: bv32)
    requires Below(v, Half(m))
    ensures Below(v, 0x8000_0000)
  {
  }

  /** The word of a number below 2^k has the number's bits. */
  lemma {:induction false} WordOf(n: nat, m: bv32, k: nat)
    requires n < Pow2(k) && IsPower(m, k)
    ensures Below(Word(n), m) && WordBits(Word(n), k) == Lsb(n, k)
    decreases k
  {
    hide Odd, Half, Below, Double, DoubleAndOne;
    if k == 0 {
      ZeroBelow(m);
    } else {
      WordOf(n / 2, Half(m), k - 1);
      if n > 0 {
        var v := Word(n / 2);
        BelowHalf(v, m);
        DoubleOdd(v);
        DoubleHalf(v);
        DoubleAndOneHalf(v);
        DoubleBelow(v, m);
        DoubleAndOneBelow(v, m);
      } else {
        ZeroBelow(m);
        PowerPositive(m, k);
      }
    }
  }

  lemma ZeroBelow(m: bv32)
    ensures m != 0 ==> Below(0, m)
    ensures !Odd(0) && Half(0) == 0
  {
  }

  lemma {:induction false} PowerPositive(m: bv32, k: nat)
    requires IsPower(m, k)
    ensures m != 0
    decreases k
  {
    hide Odd, Half;
    ZeroBelow(m);
    if k > 0 {
      PowerPositive(Half(m), k - 1);
    }
  }

  function Decremented(m: bv32): bv32
    requires m != 0
  {
    m - 1
  }

  lemma DecrementHalf(m: bv32)
    requires m != 0 && !Odd(m)
    ensures Half(m) != 0 && Odd(Decremented(m)) && Half(Decremented(m)) == Decremented(Half(m))
  {
  }

  function Trues(n: nat): (r: seq<bool>)
    ensures |r| == n
  {
    seq(n, _ => true)
  }

  /** 2^n - 1 has n ones. */
  lemma {:induction false} OnesBelow(m: bv32, n: nat)
    requires IsPower(m, n) && m != 0
    ensures WordBits(Decremented(m), n) == Trues(n)
    decreases n
  {
    hide Odd, Half, Decremented;
    if n > 0 {
      DecrementHalf(m);
      OnesBelow(Half(m), n - 1);
      assert Trues(n) == [true] + Trues(n - 1);
    }
  }

  lemma OnesHalf()
    ensures Odd(0xFFFF_FFFF) && Half(0xFFFF_FFFF) == Decremented(0x8000_0000)
  {
  }

  lemma AllOnesBits()
    ensures WordBits(0xFFFF_FFFF, 32) == Trues(32)
  {
    hide Odd, Half, Decremented, IsPower;
    OnesHalf();
    TopPower();
    OnesBelow(0x8000_0000, 31);
    assert Trues(32) == [true] + Trues(31);
  }

  lemma {:induction false} NoBits(n: nat)
    ensures WordBits(0, n) == Zeros(n)
  {
    hide Odd, Half;
    if n > 0 {
      ZeroBelow(1);
      NoBits(n - 1);
      assert Zeros(n) == [false] + Zeros(n - 1);
    }
  }

  lemma HalfNotBelow(v: bv32, m: bv32)
    requires !Below(v, m) && !Odd(m)
    ensures !Below(Half(v), Half(m))
  {
  }

  lemma JustOne(v: bv32)
    requires !Below(v, 1) && Below(Half(v), 1)
    ensures Odd(v)
  {
  }

  /** A word from 2^n to 2^(n+1) - 1 has the n-th bit. */
  lemma {:induction false} HighOne(v: bv32, m: bv32, n: nat)
    requires !Below(v, m) && Below(Half(v), m) && IsPower(m, n)
    ensures WordBits(v, n + 1)[n]
    decreases n
  {
    hide Odd, Half, Below;
    if n == 0 {
      JustOne(v);
    } else {
      HalfNotBelow(v, m);
      HalfBelow(Half(v), m);
      HighOne(Half(v), Half(m), n - 1);
    }
  }
}
