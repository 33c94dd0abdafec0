/** Bit strings and their numeric values. */
module Bits {

  type Byte = n: int | 0 <= n < 256

  function Pow2(n: nat): (r: nat)
    ensures r >= 1
  {
    if n == 0 then 1 else 2 * Pow2(n - 1)
  }

  lemma {:induction false} Pow2Add(a: nat, b: nat)
    ensures Pow2(a + b) == Pow2(a) * Pow2(b)
  {
    if a > 0 {
      Pow2Add(a - 1, b);
    }
  }

  /** The n low bits of v, least significant first (section 3.1.1 of RFC 1951). */
  function Lsb(v: nat, n: nat): (r: seq<bool>)
    ensures |r| == n
  {
    if n == 0 then [] else [v % 2 == 1] + Lsb(v / 2, n - 1)
  }

  /** Value of a bit string whose first bit is least significant. */
  function FromLsb(b: seq<bool>): (r: nat)
    ensures r < Pow2(|b|)
  {
    if b == [] then 0 else (if b[0] then 1 else 0) + 2 * FromLsb(b[1..])
  }

  /** v >> n. */
  function Shr(v: nat, n: nat): nat {
    if n == 0 then v else Shr(v / 2, n - 1)
  }

  /** v & ((1 << n) - 1). */
  function Mask(v: nat, n: nat): (r: nat)
    ensures r < Pow2(n)
  {
    FromLsb(Lsb(v, n))
  }

  lemma {:induction false} MaskSmall(v: nat, n: nat)
    requires v < Pow2(n)
    ensures Mask(v, n) == v
  {
    if n > 0 {
      MaskSmall(v / 2, n - 1);
      assert Lsb(v, n)[1..] == Lsb(v / 2, n - 1);
    }
  }

  lemma {:induction false} ShrSmall(v: nat, n: nat, m: nat)
    requires v < Pow2(n + m)
    ensures Shr(v, n) < Pow2(m)
  {
    if n > 0 {
      ShrSmall(v / 2, n - 1, m);
    }
  }

  lemma {:induction false} LsbOfFromLsb(b: seq<bool>)
    ensures Lsb(FromLsb(b), |b|) == b
  {
    if b != [] {
      LsbOfFromLsb(b[1..]);
    }
  }

  lemma {:induction false} LsbSplit(v: nat, n: nat, m: nat)
    ensures Lsb(v, n + m) == Lsb(v, n) + Lsb(Shr(v, n), m)
  {
    if n > 0 {
      LsbSplit(v / 2, n - 1, m);
      assert Lsb(v, n + m) == [v % 2 == 1] + Lsb(v / 2, n - 1 + m);
    }
  }

  /** Putting m more bits above n low bits. */
  lemma {:induction false} LsbJoin(v: nat, n: nat, w: nat, m: nat)
    requires v < Pow2(n)
    ensures Lsb(v + w * Pow2(n), n + m) == Lsb(v, n) + Lsb(w, m)
  {
    if n == 0 {
    } else {
      var p := Pow2(n - 1);
      Twice(w, p);
      var x := w * p;
      Halve(v, x);
      LsbJoin(v / 2, n - 1, w, m);
      assert Lsb(v + 2 * x, n + m) == [v % 2 == 1] + Lsb(v / 2 + x, n - 1 + m);
    }
  }

  lemma Twice(w: nat, p: nat)
    ensures w * (2 * p) == 2 * (w * p)
  {
  }

  lemma Halve(v: nat, x: nat)
    ensures (v + 2 * x) / 2 == v / 2 + x && (v + 2 * x) % 2 == v % 2
  {
  }

  /** Bits of a byte string in stream order. */
  function ByteBits(s: seq<Byte>): (r: seq<bool>)
    ensures |r| == 8 * |s|
  {
    if s == [] then [] else Lsb(s[0], 8) + ByteBits(s[1..])
  }

  lemma {:induction false} ByteBitsAppend(a: seq<Byte>, b: seq<Byte>)
    ensures ByteBits(a + b) == ByteBits(a) + ByteBits(b)
  {
    if a == [] {
      assert a + b == b;
    } else {
      assert (a + b)[1..] == a[1..] + b;
      ByteBitsAppend(a[1..], b);
    }
  }

  lemma LsbInjective(a: Byte, b: Byte)
    requires Lsb(a, 8) == Lsb(b, 8)
    ensures a == b
  {
    assert Pow2(8) == 256;
    MaskSmall(a, 8);
    MaskSmall(b, 8);
  }

  /** Bits that start like the bytes y come from bytes that start with y. */
  lemma {:induction false} BytesOfBits(x: seq<Byte>, y: seq<Byte>, tail: seq<bool>)
    requires ByteBits(x) == ByteBits(y) + tail
    ensures y <= x && ByteBits(x[|y|..]) == tail
  {
    if y == [] {
      assert ByteBits(y) + tail == tail && x[0..] == x;
    } else {
      assert |ByteBits(x)| == 8 * |x|;
      var xs, ys := ByteBits(x), ByteBits(y) + tail;
      assert xs[..8] == Lsb(x[0], 8) && ys[..8] == Lsb(y[0], 8);
      LsbInjective(x[0], y[0]);
      assert xs[8..] == ByteBits(x[1..]) && ys[8..] == ByteBits(y[1..]) + tail;
      BytesOfBits(x[1..], y[1..], tail);
      assert x[1..][|y| - 1..] == x[|y|..];
    }
  }

  // ----- Little-endian words -------------------------------------------------------------------

  function Limit(k: nat): (r: nat)
    ensures r > 0
  {
    if k == 0 then 1 else 256 * Limit(k - 1)
  }

  function Le(n: nat, k: nat): (r: seq<Byte>)
    ensures |r| == k
  {
    if k == 0 then [] else [n % 256] + Le(n / 256, k - 1)
  }

  function FromLe(b: seq<Byte>): nat {
    if b == [] then 0 else b[0] + 256 * FromLe(b[1..])
  }

  lemma Digits(n: nat, m: nat)
    requires m > 0
    ensures n % 256 + 256 * (n / 256 % m) == n % (256 * m)
  {
    var q, k := n / 256, n / 256 / m;
    assert q == m * k + q % m;
    assert n == 256 * m * k + (256 * (q % m) + n % 256);
    Remainder(n, 256 * m, k, 256 * (q % m) + n % 256);
  }

  lemma Remainder(n: nat, d: nat, k: nat, r: nat)
    requires r < d && n == d * k + r
    ensures n % d == r
  {
    var x: int, e: int := n / d - k, d;
    assert e * x == r - n % d;
    Apart(e, x);
  }

  lemma Apart(e: int, x: int)
    requires e > 0
    ensures x >= 1 ==> e * x >= e
    ensures x <= -1 ==> e * x <= -e
  {
  }

  /** A word of k bytes keeps the number modulo 256^k. */
  lemma {:induction false} LeWraps(n: nat, k: nat)
    ensures FromLe(Le(n, k)) == n % Limit(k)
    decreases k
  {
    if k > 0 {
      LeWraps(n / 256, k - 1);
      assert Le(n, k)[1..] == Le(n / 256, k - 1);
      Digits(n, Limit(k - 1));
    }
  }

  lemma LeRoundTrip(n: nat, k: nat)
    requires n < Limit(k)
    ensures FromLe(Le(n, k)) == n
  {
    LeWraps(n, k);
  }

  lemma {:induction false} FromLeBound(b: seq<Byte>)
    ensures FromLe(b) < Limit(|b|)
  {
    if b != [] {
      FromLeBound(b[1..]);
    }
  }

  /** The bytes of a word hold its bits, the least significant ones first. */
  lemma {:induction false} LeBits(n: nat, k: nat)
    ensures ByteBits(Le(n, k)) == Lsb(n, 8 * k)
    decreases k
  {
    if k > 0 {
      LeBits(n / 256, k - 1);
      assert Le(n, k)[1..] == Le(n / 256, k - 1);
      LowByte(n);
      LsbSplit(n, 8, 8 * (k - 1));
    }
  }

  lemma LowByte(n: nat)
    ensures Lsb(n % 256, 8) == Lsb(n, 8) && Shr(n, 8) == n / 256
  {
    assert Pow2(8) == 256;
    LsbJoin(n % 256, 8, n / 256, 0);
    assert n / 2 / 2 == n / 4 && n / 4 / 2 == n / 8 && n / 8 / 2 == n / 16;
    assert Shr(n, 4) == n / 16 by {
      assert Shr(n, 4) == Shr(n / 2, 3) == Shr(n / 4, 2) == Shr(n / 8, 1) == Shr(n / 16, 0);
    }
    assert Shr(n, 8) == Shr(n / 2, 7) == Shr(n / 4, 6) == Shr(n / 8, 5) == Shr(n / 16, 4);
    var m := n / 16;
    assert m / 2 / 2 == m / 4 && m / 4 / 2 == m / 8 && m / 8 / 2 == m / 16;
    assert Shr(m, 4) == Shr(m / 2, 3) == Shr(m / 4, 2) == Shr(m / 8, 1) == Shr(m / 16, 0);
    assert m / 16 == n / 256;
  }
}
