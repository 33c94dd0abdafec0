/** Canonical Huffman codes (section 3.2.2 of RFC 1951) and the facts the counting decoder relies on. */
module Huffman {
  import opened Bits

  const MAX_BITS: nat := 15

  /** Code length of each symbol; 0 means the symbol does not occur. */
  type Lengths = seq<nat>

  ghost predicate ShortLengths(ls: Lengths) {
    forall i | 0 <= i < |ls| :: ls[i] <= 15
  }

  /** How many symbols have length L. */
  function Count(ls: Lengths, L: nat): (r: nat)
    ensures r <= |ls|
  {
    if ls == [] then 0 else Count(ls[..|ls| - 1], L) + (if ls[|ls| - 1] == L then 1 else 0)
  }

  /** bl_count of the RFC: length 0 does not count. */
  function Cnt(ls: Lengths, L: nat): (r: nat) {
    if L == 0 then 0 else Count(ls, L)
  }

  /** next_code of the RFC: the first code of length L. */
  function First(ls: Lengths, L: nat): (r: nat) {
    if L == 0 then 0 else 2 * (First(ls, L - 1) + Cnt(ls, L - 1))
  }

  /** How many codes are shorter than L. */
  function Offset(ls: Lengths, L: nat): (r: nat) {
    if L == 0 then 0 else Offset(ls, L - 1) + Cnt(ls, L - 1)
  }

  /** Symbol s occurs in the code. */
  ghost predicate Coded(ls: Lengths, s: nat) {
    s < |ls| && 0 < ls[s] <= MAX_BITS
  }

  /** The code the RFC assigns to symbol s: codes of one length go to symbols in increasing order. */
  function Code(ls: Lengths, s: nat): (r: nat)
    requires s < |ls|
  {
    First(ls, ls[s]) + Count(ls[..s], ls[s])
  }

  /** The n low bits of v, most significant first: how Huffman codes are packed. */
  function Msb(v: nat, n: nat): (r: seq<bool>)
    ensures |r| == n
  {
    if n == 0 then [] else Msb(v / 2, n - 1) + [v % 2 == 1]
  }

  function FromMsb(b: seq<bool>): (r: nat) {
    if b == [] then 0 else 2 * FromMsb(b[..|b| - 1]) + (if b[|b| - 1] then 1 else 0)
  }

  lemma {:induction false} FromMsbOfMsb(v: nat, n: nat)
    requires v < Pow2(n)
    ensures FromMsb(Msb(v, n)) == v
  {
    if n > 0 {
      FromMsbOfMsb(v / 2, n - 1);
      assert Msb(v, n)[..n - 1] == Msb(v / 2, n - 1);
    }
  }

  lemma {:induction false} MsbOfFromMsb(b: seq<bool>)
    ensures FromMsb(b) < Pow2(|b|) && Msb(FromMsb(b), |b|) == b
  {
    if b != [] {
      MsbOfFromMsb(b[..|b| - 1]);
    }
  }

  function CodeBits(ls: Lengths, s: nat): (r: seq<bool>)
    requires s < |ls|
    ensures |r| == ls[s]
  {
    Msb(Code(ls, s), ls[s])
  }

  // ----- Counting symbols ----------------------------------------------------------------------

  lemma {:induction false} CountSplit(ls: Lengths, k: nat, L: nat)
    requires k <= |ls|
    ensures Count(ls, L) == Count(ls[..k], L) + Count(ls[k..], L)
  {
    if k == |ls| {
      assert ls[..k] == ls && ls[k..] == [];
    } else {
      var n := |ls| - 1;
      CountSplit(ls[..n], k, L);
      assert ls[..n][..k] == ls[..k] && ls[..n][k..] == ls[k..n];
      assert ls[k..][..n - k] == ls[k..n];
    }
  }

  /** Symbols before s of the same length are fewer than all symbols of that length. */
  lemma RankBelow(ls: Lengths, s: nat)
    requires s < |ls|
    ensures Count(ls[..s], ls[s]) < Count(ls, ls[s])
  {
    CountSplit(ls, s + 1, ls[s]);
    assert ls[..s + 1][..s] == ls[..s];
  }

  lemma RankMonotone(ls: Lengths, s: nat, t: nat)
    requires s < t < |ls| && ls[s] == ls[t]
    ensures Count(ls[..s], ls[s]) < Count(ls[..t], ls[s])
  {
    RankBelow(ls[..t], s);
    assert ls[..t][..s] == ls[..s];
  }

  /** There is a k-th symbol of length L. */
  lemma {:induction false} Nth(ls: Lengths, L: nat, k: nat) returns (s: nat)
    requires k < Count(ls, L)
    ensures s < |ls| && ls[s] == L && Count(ls[..s], L) == k
  {
    var n := |ls| - 1;
    if k < Count(ls[..n], L) {
      s := Nth(ls[..n], L, k);
      assert ls[..n][..s] == ls[..s];
    } else {
      s := n;
    }
  }

  // ----- Kraft sum -----------------------------------------------------------------------------

  /** Sum of 2^(15 - length) over all codes. */
  function Kraft(ls: Lengths): (r: nat)
    requires ShortLengths(ls)
  {
    if ls == [] then 0
    else
      var l := ls[|ls| - 1];
      Kraft(ls[..|ls| - 1]) + (if l == 0 then 0 else Pow2(MAX_BITS - l))
  }

  lemma {:induction false} FirstAppend(ls: Lengths, l: nat, L: nat)
    ensures First(ls + [l], L) == First(ls, L) + (if 0 < l < L then Pow2(L - l) else 0)
  {
    if L > 0 {
      FirstAppend(ls, l, L - 1);
      assert (ls + [l])[..|ls|] == ls;
      if 0 < l < L {
        assert Pow2(L - l) == 2 * Pow2(L - l - 1);
        if l == L - 1 { assert Pow2(L - l - 1) == 1; }
      }
    }
  }

  lemma {:induction false} FirstEmpty(L: nat)
    ensures First([], L) == 0
  {
    if L > 0 { FirstEmpty(L - 1); }
  }

  lemma {:induction false} FirstIsKraft(ls: Lengths)
    requires ShortLengths(ls)
    ensures First(ls, MAX_BITS + 1) == 2 * Kraft(ls)
  {
    if ls == [] {
      FirstEmpty(MAX_BITS + 1);
    } else {
      var n := |ls| - 1;
      FirstIsKraft(ls[..n]);
      FirstAppend(ls[..n], ls[n], MAX_BITS + 1);
      assert ls[..n] + [ls[n]] == ls;
    }
  }

  /** Free code points of length L. */
  function Avail(ls: Lengths, L: nat): int {
    Pow2(L) - First(ls, L)
  }

  lemma AvailStep(ls: Lengths, L: nat)
    ensures Avail(ls, L + 1) == 2 * (Avail(ls, L) - Cnt(ls, L))
  {
  }

  lemma {:induction false} NegativeStays(ls: Lengths, L: nat, M: nat)
    requires L <= M && Avail(ls, L) < 0
    ensures Avail(ls, M) < 0
    decreases M - L
  {
    if L < M {
      AvailStep(ls, L);
      NegativeStays(ls, L + 1, M);
    }
  }

  /** The codes use up the code space exactly. */
  ghost predicate Complete(ls: Lengths) {
    ShortLengths(ls) && Kraft(ls) == Pow2(15)
  }

  lemma OverMeansBigKraft(ls: Lengths, j: nat)
    requires ShortLengths(ls) && j <= MAX_BITS && Cnt(ls, j) > Avail(ls, j)
    ensures Kraft(ls) > Pow2(MAX_BITS)
  {
    AvailStep(ls, j);
    NegativeStays(ls, j + 1, MAX_BITS + 1);
    FirstIsKraft(ls);
  }

  lemma KraftOfAvail(ls: Lengths)
    requires ShortLengths(ls)
    ensures Avail(ls, MAX_BITS + 1) == 2 * (Pow2(MAX_BITS) - Kraft(ls))
  {
    FirstIsKraft(ls);
  }

  lemma CompleteNotOver(ls: Lengths, j: nat)
    requires Complete(ls) && j <= MAX_BITS
    ensures Cnt(ls, j) <= Avail(ls, j) && First(ls, j) + Cnt(ls, j) <= Pow2(j)
  {
    if Cnt(ls, j) > Avail(ls, j) { OverMeansBigKraft(ls, j); }
  }

  lemma CompleteEnds(ls: Lengths)
    requires Complete(ls)
    ensures First(ls, MAX_BITS) + Cnt(ls, MAX_BITS) == Pow2(MAX_BITS)
  {
    KraftOfAvail(ls);
    AvailStep(ls, MAX_BITS);
  }

  // ----- Codes ---------------------------------------------------------------------------------

  lemma CodeInRange(ls: Lengths, s: nat)
    requires Complete(ls) && Coded(ls, s)
    ensures First(ls, ls[s]) <= Code(ls, s) < First(ls, ls[s]) + Cnt(ls, ls[s])
    ensures Code(ls, s) < Pow2(ls[s])
    ensures FromMsb(CodeBits(ls, s)) == Code(ls, s)
  {
    RankBelow(ls, s);
    CompleteNotOver(ls, ls[s]);
    FromMsbOfMsb(Code(ls, s), ls[s]);
  }

  /** A bit string that already reaches First(L) stays above all shorter codes. */
  lemma {:induction false} PrefixAbove(ls: Lengths, b: seq<bool>, k: nat)
    requires k < |b| && FromMsb(b) >= First(ls, |b|)
    ensures FromMsb(b[..k]) >= First(ls, k) + Cnt(ls, k)
    decreases |b|
  {
    var n := |b| - 1;
    assert FromMsb(b[..n]) >= First(ls, n) + Cnt(ls, n);
    if k < n {
      PrefixAbove(ls, b[..n], k);
      assert b[..n][..k] == b[..k];
    }
  }

  /** A code is not a prefix of another code. */
  lemma PrefixFree(ls: Lengths, s: nat, t: nat)
    requires Complete(ls) && Coded(ls, s) && Coded(ls, t) && CodeBits(ls, s) <= CodeBits(ls, t)
    ensures s == t
  {
    CodeInRange(ls, s);
    CodeInRange(ls, t);
    if ls[s] < ls[t] {
      assert CodeBits(ls, t)[..ls[s]] == CodeBits(ls, s);
      PrefixAbove(ls, CodeBits(ls, t), ls[s]);
    } else {
      assert CodeBits(ls, s) == CodeBits(ls, t);
      if s < t { RankMonotone(ls, s, t); }
      if t < s { RankMonotone(ls, t, s); }
    }
  }

  /** The rules of section 3.2.2 of RFC 1951: codes of one length are consecutive numbers in the order of their symbols,
      and shorter codes come before longer ones. */
  lemma CanonicalRules(ls: Lengths, s: nat, t: nat)
    requires Complete(ls) && Coded(ls, s) && Coded(ls, t)
    ensures ls[s] == ls[t] && s < t && (forall u | s < u < t :: ls[u] != ls[s]) ==>
      FromMsb(CodeBits(ls, t)) == FromMsb(CodeBits(ls, s)) + 1
    ensures ls[s] < ls[t] ==> FromMsb(CodeBits(ls, s)) < FromMsb(CodeBits(ls, t)[..ls[s]])
  {
    CodeInRange(ls, s);
    CodeInRange(ls, t);
    if ls[s] < ls[t] {
      PrefixAbove(ls, CodeBits(ls, t), ls[s]);
    } else if ls[s] == ls[t] && s < t && forall u | s < u < t :: ls[u] != ls[s] {
      var L, a := ls[s], ls[..t];
      CountSplit(a, s + 1, L);
      assert a[..s + 1][..s] == ls[..s];
      CountNone(a[s + 1..], L);
    }
  }

  lemma {:induction false} CountNone(ls: Lengths, L: nat)
    requires forall i | 0 <= i < |ls| :: ls[i] != L
    ensures Count(ls, L) == 0
  {
    if ls != [] {
      CountNone(ls[..|ls| - 1], L);
    }
  }

  /** Fifteen bits always contain a code: the code is complete. */
  lemma EveryStringDecodes(ls: Lengths, b: seq<bool>) returns (s: nat)
    requires Complete(ls) && |b| >= 15
    ensures Coded(ls, s) && CodeBits(ls, s) <= b
  {
    var k: nat := 0;
    while FromMsb(b[..k]) >= First(ls, k) + Cnt(ls, k)
      invariant k <= MAX_BITS
      invariant FromMsb(b[..k]) >= First(ls, k)
      decreases MAX_BITS - k
    {
      if k == MAX_BITS {
        CompleteEnds(ls);
        MsbOfFromMsb(b[..k]);
      }
      assert b[..k + 1][..k] == b[..k];
      k := k + 1;
    }
    s := StopsAtCode(ls, b[..k]);
  }

  /** A string inside the range of codes of its length is the code of some symbol. */
  lemma StopsAtCode(ls: Lengths, p: seq<bool>) returns (s: nat)
    requires |p| <= MAX_BITS && First(ls, |p|) <= FromMsb(p) < First(ls, |p|) + Cnt(ls, |p|)
    ensures Coded(ls, s) && ls[s] == |p| && CodeBits(ls, s) == p
    ensures Count(ls[..s], ls[s]) == FromMsb(p) - First(ls, |p|)
  {
    s := Nth(ls, |p|, FromMsb(p) - First(ls, |p|));
    MsbOfFromMsb(p);
  }

  // ----- Decoding tables -----------------------------------------------------------------------

  /** Number of symbols that occur. */
  function Codes(ls: Lengths): (r: nat)
    ensures r <= |ls|
  {
    if ls == [] then 0 else Codes(ls[..|ls| - 1]) + (if ls[|ls| - 1] == 0 then 0 else 1)
  }

  /** Largest symbol that occurs, or -1. */
  function MaxSym(ls: Lengths): (r: int)
    ensures -1 <= r < |ls|
    ensures r >= 0 ==> ls[r] != 0
    ensures forall i | r < i < |ls| :: ls[i] == 0
  {
    if ls == [] then -1 else if ls[|ls| - 1] != 0 then |ls| - 1 else MaxSym(ls[..|ls| - 1])
  }

  /** Position of symbol s when symbols are sorted by code. */
  function Slot(ls: Lengths, s: nat): nat
    requires s < |ls|
  {
    Offset(ls, ls[s]) + Count(ls[..s], ls[s])
  }

  /** The tables hold the counts per length and the symbols sorted by code. */
  ghost predicate TablesFor(counts: seq<nat>, symbols: seq<nat>, ls: Lengths) {
    && |counts| == MAX_BITS + 1
    && (forall L | 0 <= L <= MAX_BITS :: counts[L] == Cnt(ls, L))
    && (forall s | 0 <= s < |ls| && Coded(ls, s) :: Slot(ls, s) < |symbols| && symbols[Slot(ls, s)] == s)
  }

  lemma {:induction false} OffsetGrows(ls: Lengths, L: nat, M: nat)
    requires L <= M
    ensures Offset(ls, L) <= Offset(ls, M)
    decreases M - L
  {
    if L < M { OffsetGrows(ls, L + 1, M); }
  }

  lemma {:induction false} OffsetAppend(ls: Lengths, l: nat, L: nat)
    ensures Offset(ls + [l], L) == Offset(ls, L) + (if 0 < l < L then 1 else 0)
  {
    if L > 0 {
      OffsetAppend(ls, l, L - 1);
      assert (ls + [l])[..|ls|] == ls;
    }
  }

  lemma {:induction false} OffsetEmpty(L: nat)
    ensures Offset([], L) == 0
  {
    if L > 0 { OffsetEmpty(L - 1); }
  }

  lemma {:induction false} OffsetIsCodes(ls: Lengths)
    requires ShortLengths(ls)
    ensures Offset(ls, MAX_BITS + 1) == Codes(ls)
  {
    if ls == [] {
      OffsetEmpty(MAX_BITS + 1);
    } else {
      var n := |ls| - 1;
      OffsetIsCodes(ls[..n]);
      OffsetAppend(ls[..n], ls[n], MAX_BITS + 1);
      assert ls[..n] + [ls[n]] == ls;
    }
  }

  lemma SlotInRange(ls: Lengths, s: nat)
    requires ShortLengths(ls) && Coded(ls, s)
    ensures Slot(ls, s) < Offset(ls, ls[s] + 1) <= Codes(ls)
  {
    RankBelow(ls, s);
    OffsetGrows(ls, ls[s] + 1, MAX_BITS + 1);
    OffsetIsCodes(ls);
  }

  lemma SlotsDiffer(ls: Lengths, s: nat, t: nat)
    requires ShortLengths(ls) && Coded(ls, s) && Coded(ls, t) && s < t
    ensures Slot(ls, s) != Slot(ls, t)
  {
    SlotInRange(ls, s);
    SlotInRange(ls, t);
    if ls[s] == ls[t] {
      RankMonotone(ls, s, t);
    } else if ls[s] < ls[t] {
      OffsetGrows(ls, ls[s] + 1, ls[t]);
    } else {
      OffsetGrows(ls, ls[t] + 1, ls[s]);
    }
  }

  // ----- Which codes are usable ----------------------------------------------------------------

  /** Which length vectors give a usable code. */
  ghost predicate Accepted(ls: Lengths)
    requires ShortLengths(ls)
  {
    || Codes(ls) == 0
    || (Codes(ls) == 1 && Count(ls, 1) == 1)
    || (Codes(ls) > 1 && Kraft(ls) == Pow2(15))
  }

  /** The code the tables stand for: a lone one-bit code gets a partner whose symbol is out of range. */
  ghost function Effective(ls: Lengths): Lengths {
    if Codes(ls) == 1 then ls[..MaxSym(ls) + 1] + [1] else ls
  }
}
