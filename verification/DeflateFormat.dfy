/** The DEFLATE format (RFC 1951): what a compressed bit string means, independently of how it is decoded. */
module DeflateFormat {
  import opened Bits
  import opened Huffman

  // Length codes 257..285 and distance codes 0..29 (section 3.2.5 of RFC 1951).
  const LENS_BASE: seq<nat> := [3, 4, 5, 6, 7, 8, 9, 10, 11, 13, 15, 17, 19, 23, 27, 31, 35, 43, 51, 59, 67, 83, 99,
                                115, 131, 163, 195, 227, 258]
  const LENS_BITS: seq<nat> := [0, 0, 0, 0, 0, 0, 0, 0, 1, 1, 1, 1, 2, 2, 2, 2, 3, 3, 3, 3, 4, 4, 4, 4, 5, 5, 5, 5, 0]
  const DIST_BASE: seq<nat> := [1, 2, 3, 4, 5, 7, 9, 13, 17, 25, 33, 49, 65, 97, 129, 193, 257, 385, 513, 769, 1025,
                                1537, 2049, 3073, 4097, 6145, 8193, 12289, 16385, 24577]
  const DIST_BITS: seq<nat> := [0, 0, 0, 0, 1, 1, 2, 2, 3, 3, 4, 4, 5, 5, 6, 6, 7, 7, 8, 8, 9, 9, 10, 10, 11, 11, 12,
                                12, 13, 13]

  const LEN_SYMBOLS: nat := 29
  const DIST_SYMBOLS: nat := 30

  function LensBase(l: nat): nat
    requires l < LEN_SYMBOLS
  {
    LENS_BASE[l]
  }

  function LensBits(l: nat): (r: nat)
    requires l < LEN_SYMBOLS
    ensures r <= 5
  {
    LENS_BITS[l]
  }

  function DistBase(d: nat): (r: nat)
    requires d < DIST_SYMBOLS
    ensures r >= 1
  {
    DIST_BASE[d]
  }

  function DistBits(d: nat): (r: nat)
    requires d < DIST_SYMBOLS
    ensures r <= 13
  {
    DIST_BITS[d]
  }

  const END_OF_BLOCK: nat := 256
  const WINDOW_SIZE: nat := 0x8000
  const MAX_STORED: nat := 65535

  /** A literal byte, a copy given by its length and distance symbols with their extra bits, or a length symbol that the
      decoder refuses, after which nothing is read. */
  datatype Token = Literal(value: Byte) | Copy(lsym: nat, lextra: nat, dsym: nat, dextra: nat) | Refused(symbol: nat)

  ghost predicate TokenOk(ls: Lengths, ds: Lengths, t: Token) {
    match t
    case Literal(b) => Coded(ls, b)
    case Copy(l, le, d, de) =>
      && l < 29 && Coded(ls, 257 + l) && le < Pow2(LensBits(l))
      && d < 30 && Coded(ds, d) && de < Pow2(DistBits(d))
    case Refused(s) => 256 < s && Coded(ls, s)
  }

  function LengthOf(t: Token): nat
    requires t.Copy? && t.lsym < LEN_SYMBOLS
  {
    LensBase(t.lsym) + t.lextra
  }

  function DistanceOf(t: Token): nat
    requires t.Copy? && t.dsym < DIST_SYMBOLS
  {
    DistBase(t.dsym) + t.dextra
  }

  function TokenBits(ls: Lengths, ds: Lengths, t: Token): seq<bool>
    requires TokenOk(ls, ds, t)
  {
    match t
    case Literal(b) => CodeBits(ls, b)
    case Copy(l, le, d, de) =>
      CodeBits(ls, 257 + l) + (Lsb(le, LensBits(l)) + (CodeBits(ds, d) + Lsb(de, DistBits(d))))
    case Refused(s) => CodeBits(ls, s)
  }

  ghost predicate TokensOk(ls: Lengths, ds: Lengths, toks: seq<Token>) {
    forall i | 0 <= i < |toks| :: TokenOk(ls, ds, toks[i])
  }

  /** Bits of a Huffman block after its header. */
  function BodyBits(ls: Lengths, ds: Lengths, toks: seq<Token>): seq<bool>
    requires TokensOk(ls, ds, toks) && 256 < |ls|
  {
    if toks == [] then CodeBits(ls, 256)
    else if toks[0].Refused? then TokenBits(ls, ds, toks[0])
    else TokenBits(ls, ds, toks[0]) + BodyBits(ls, ds, toks[1..])
  }

  // ----- Meaning -------------------------------------------------------------------------------

  /** Appends `n` bytes, each read `dist` back from the end of what is there by then. */
  function CopyBytes(h: seq<Byte>, n: nat, dist: nat): (r: seq<Byte>)
    requires 1 <= dist <= |h|
    ensures |r| == |h| + n && h <= r
    decreases n
  {
    if n == 0 then h else CopyBytes(h + [h[|h| - dist]], n - 1, dist)
  }

  /** Each copied byte equals the byte `dist` before it, even when the source overlaps the copy (section 3.2.3 of RFC
      1951). */
  lemma {:induction false} CopyRepeats(h: seq<Byte>, n: nat, dist: nat, j: nat)
    requires 1 <= dist <= |h| && |h| <= j < |h| + n
    ensures CopyBytes(h, n, dist)[j] == CopyBytes(h, n, dist)[j - dist]
    decreases n
  {
    var h' := h + [h[|h| - dist]];
    var r := CopyBytes(h', n - 1, dist);
    if j == |h| {
      assert r[j] == h'[j] && r[j - dist] == h'[j - dist];
    } else {
      CopyRepeats(h', n - 1, dist, j);
    }
  }

  /** ... and that rule leaves only one result. */
  lemma {:induction false} CopyUnique(h: seq<Byte>, n: nat, dist: nat, r: seq<Byte>, j: nat)
    requires 1 <= dist <= |h| && |r| == |h| + n && h <= r && j < |r|
    requires forall i | |h| <= i < |r| :: r[i] == r[i - dist]
    ensures r[j] == CopyBytes(h, n, dist)[j]
  {
    if j >= |h| {
      CopyUnique(h, n, dist, r, j - dist);
      CopyRepeats(h, n, dist, j);
    }
  }

  /** Every distance stays inside the output produced so far. */
  ghost predicate InReach(h: seq<Byte>, toks: seq<Token>)
    decreases |toks|
  {
    toks == [] ||
    match toks[0]
    case Literal(b) => InReach(h + [b], toks[1..])
    case Copy(l, _, d, _) =>
      && l < LEN_SYMBOLS && d < DIST_SYMBOLS
      && 1 <= DistanceOf(toks[0]) <= |h|
      && InReach(CopyBytes(h, LengthOf(toks[0]), DistanceOf(toks[0])), toks[1..])
    case Refused(_) => true
  }

  function Expand(h: seq<Byte>, toks: seq<Token>): (r: seq<Byte>)
    requires InReach(h, toks)
    ensures |r| >= |h|
    decreases |toks|
  {
    if toks == [] then h
    else match toks[0]
      case Literal(b) => Expand(h + [b], toks[1..])
      case Copy(_, _, _, _) => Expand(CopyBytes(h, LengthOf(toks[0]), DistanceOf(toks[0])), toks[1..])
      case Refused(_) => h
  }

  // ----- The ranges of section 3.2.5 of RFC 1951 -----------------------------------------------

  /** Length symbols 257 to 264 stand for one length each, then groups of four take one extra bit more; 285 is 258. */
  lemma LensExtra(l: nat)
    requires l < 29
    ensures LensBits(l) == if l < 8 || l == 28 then 0 else l / 4 - 1
  {
  }

  /** The ranges of the length symbols follow each other without gap or overlap. */
  lemma LensTile(l: nat)
    requires l < 29
    ensures LensBase(0) == 3 && LensBase(28) == 258
    ensures l < 27 ==> LensBase(l + 1) == LensBase(l) + Pow2(LensBits(l))
    ensures LensBase(27) + Pow2(LensBits(27)) == 259
  {
    hide Pow2;
    Pow2Values();
  }

  lemma DistExtra(d: nat)
    requires d < 30
    ensures DistBits(d) == if d < 2 then 0 else d / 2 - 1
  {
  }

  /** So do those of the distance symbols. */
  lemma DistTile(d: nat)
    requires d < 30
    ensures DistBase(0) == 1
    ensures d < 29 ==> DistBase(d + 1) == DistBase(d) + Pow2(DistBits(d))
    ensures DistBase(29) + Pow2(DistBits(29)) == 32769
  {
    hide Pow2;
    Pow2Values();
  }

  /** Every length from 3 to 258 has a symbol and extra bits, found by counting up the ranges. */
  lemma {:induction false} EveryLength(n: nat, l: nat) returns (t: Token)
    requires l < 28 && LensBase(l) <= n <= 258
    ensures t.Copy? && t.lsym < LEN_SYMBOLS && t.lextra < Pow2(LensBits(t.lsym)) && LengthOf(t) == n
    decreases 28 - l
  {
    hide LensBase, LensBits;
    LensTile(l);
    if l == 27 || n < LensBase(l + 1) {
      t := Copy(l, n - LensBase(l), 0, 0);
    } else {
      t := EveryLength(n, l + 1);
    }
  }

  /** Every distance from 1 to 32768 has a symbol and extra bits. */
  lemma {:induction false} EveryDistance(n: nat, d: nat) returns (t: Token)
    requires d < 30 && DistBase(d) <= n <= 32768
    ensures t.Copy? && t.dsym < DIST_SYMBOLS && t.dextra < Pow2(DistBits(t.dsym)) && DistanceOf(t) == n
    decreases 30 - d
  {
    hide DistBase, DistBits;
    DistTile(d);
    if d == 29 || n < DistBase(d + 1) {
      t := Copy(0, 0, d, n - DistBase(d));
    } else {
      t := EveryDistance(n, d + 1);
    }
  }

  /** What a copy stands for, in its range; and ranges of different symbols do not overlap, but for 258, which has a
      symbol
      of its own. */
  lemma {:induction false} LengthRange(l: nat, m: nat)
    requires l < m < 28
    ensures LensBase(l) + Pow2(LensBits(l)) <= LensBase(m)
    decreases m
  {
    hide LensBase, LensBits;
    LensTile(m - 1);
    if l < m - 1 {
      LengthRange(l, m - 1);
    }
  }

  lemma {:induction false} DistanceRange(d: nat, e: nat)
    requires d < e < 30
    ensures DistBase(d) + Pow2(DistBits(d)) <= DistBase(e)
    decreases e
  {
    hide DistBase, DistBits;
    DistTile(e - 1);
    if d < e - 1 {
      DistanceRange(d, e - 1);
    }
  }

  lemma DistanceBounded(t: Token)
    requires t.Copy? && t.dsym < DIST_SYMBOLS && t.dextra < Pow2(DistBits(t.dsym))
    ensures 1 <= DistanceOf(t) <= WINDOW_SIZE == 32768
  {
    hide Pow2;
    Pow2Values();
  }

  lemma Pow2Values()
    ensures Pow2(0) == 1 && Pow2(1) == 2 && Pow2(2) == 4 && Pow2(3) == 8 && Pow2(4) == 16 && Pow2(5) == 32
    ensures Pow2(6) == 64 && Pow2(7) == 128 && Pow2(8) == 256 && Pow2(9) == 512 && Pow2(10) == 1024
    ensures Pow2(11) == 2048 && Pow2(12) == 4096 && Pow2(13) == 8192
  {
  }

  // ----- Prefix codes read deterministically ---------------------------------------------------

  /** Two codes at the front of the same bit string are the same code. */
  lemma SameSymbol(ls: Lengths, s: nat, t: nat, bits: seq<bool>)
    requires Complete(ls) && Coded(ls, s) && Coded(ls, t) && CodeBits(ls, s) <= bits && CodeBits(ls, t) <= bits
    ensures s == t
  {
    if ls[s] <= ls[t] {
      assert CodeBits(ls, s) == CodeBits(ls, t)[..ls[s]];
      PrefixFree(ls, s, t);
    } else {
      assert CodeBits(ls, t) == CodeBits(ls, s)[..ls[t]];
      PrefixFree(ls, t, s);
    }
  }
}
