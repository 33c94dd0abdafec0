/** The fixed Huffman codes (section 3.2.6 of RFC 1951) and the tables built for them by codec-deflate/inflate.c. */
module FixedCodes {
  import opened Bits
  import opened Huffman
  import opened HuffTrees

  /** Code lengths of the fixed literal/length code. */
  function FixedLits(): (r: Lengths)
    ensures |r| == MAX_SYMBOLS
  {
    seq(MAX_SYMBOLS, i => if i < 144 then 8 else if i < 256 then 9 else if i < 280 then 7 else 8)
  }

  /** Code lengths of the fixed distance code. */
  function FixedDists(): (r: Lengths)
    ensures |r| == 32
  {
    seq(32, i => 5)
  }

  ghost predicate Run(ls: Lengths, lo: nat, hi: nat, v: nat) {
    lo <= hi <= |ls| && forall i | lo <= i < hi :: ls[i] == v
  }

  lemma {:induction false} CountRun(ls: Lengths, lo: nat, hi: nat, v: nat, L: nat)
    requires Run(ls, lo, hi, v)
    ensures Count(ls[..hi], L) == Count(ls[..lo], L) + (if v == L then hi - lo else 0)
    decreases hi
  {
    if lo < hi {
      CountRun(ls, lo, hi - 1, v, L);
      assert ls[..hi][..hi - 1] == ls[..hi - 1];
    }
  }

  lemma {:induction false} KraftRun(ls: Lengths, lo: nat, hi: nat, v: nat)
    requires Run(ls, lo, hi, v) && ShortLengths(ls) && 0 < v <= MAX_BITS
    ensures ShortLengths(ls[..hi]) && ShortLengths(ls[..lo])
    ensures Kraft(ls[..hi]) == Kraft(ls[..lo]) + (hi - lo) * Pow2(MAX_BITS - v)
    decreases hi
  {
    if lo < hi {
      hide Kraft, Pow2;
      KraftRun(ls, lo, hi - 1, v);
      KraftStep(ls, hi - 1);
      OneMoreTimes(hi - 1 - lo, Pow2(MAX_BITS - v));
      assert hi - 1 - lo + 1 == hi - lo;
    }
  }

  lemma KraftStep(ls: Lengths, n: nat)
    requires n < |ls| && ShortLengths(ls) && 0 < ls[n]
    ensures ShortLengths(ls[..n]) && ShortLengths(ls[..n + 1])
    ensures Kraft(ls[..n + 1]) == Kraft(ls[..n]) + Pow2(MAX_BITS - ls[n])
  {
    hide Pow2;
    assert ls[..n + 1][..n] == ls[..n];
  }

  lemma OneMoreTimes(k: nat, p: nat)
    ensures (k + 1) * p == k * p + p
  {
  }

  lemma FixedRuns()
    ensures Run(FixedLits(), 0, 144, 8) && Run(FixedLits(), 144, 256, 9) && Run(FixedLits(), 256, 280, 7)
    ensures Run(FixedLits(), 280, 288, 8) && ShortLengths(FixedLits())
    ensures Run(FixedDists(), 0, 32, 5) && ShortLengths(FixedDists())
  {
  }

  /** How many of the first s symbols have length L. */
  lemma FixedRank(s: nat, L: nat)
    requires s <= 288
    ensures Count(FixedLits()[..s], L) ==
            if L == 8 then (if s <= 144 then s else if s <= 280 then 144 else 144 + (s - 280))
            else if L == 9 then (if s <= 144 then 0 else if s <= 256 then s - 144 else 112)
            else if L == 7 then (if s <= 256 then 0 else if s <= 280 then s - 256 else 24)
            else 0
  {
    FixedRuns();
    var f := FixedLits();
    assert f[..0] == [];
    if s <= 144 {
      CountRun(f, 0, s, 8, L);
    } else {
      CountRun(f, 0, 144, 8, L);
      if s <= 256 {
        CountRun(f, 144, s, 9, L);
      } else {
        CountRun(f, 144, 256, 9, L);
        if s <= 280 {
          CountRun(f, 256, s, 7, L);
        } else {
          CountRun(f, 256, 280, 7, L);
          CountRun(f, 280, s, 8, L);
        }
      }
    }
  }

  lemma FixedCount(L: nat)
    ensures Cnt(FixedLits(), L) == if L == 7 then 24 else if L == 8 then 152 else if L == 9 then 112 else 0
  {
    FixedRank(288, L);
    assert FixedLits()[..288] == FixedLits();
  }

  lemma {:induction false} FixedOffset(L: nat)
    requires L <= 9
    ensures Offset(FixedLits(), L) == if L <= 7 then 0 else if L == 8 then 24 else 176
  {
    if L > 0 {
      FixedOffset(L - 1);
      FixedCount(L - 1);
    }
  }

  lemma FixedComplete()
    ensures Complete(FixedLits())
  {
    FixedRuns();
    var f := FixedLits();
    assert f[..0] == [] && f[..288] == f;
    KraftRun(f, 0, 144, 8);
    KraftRun(f, 144, 256, 9);
    KraftRun(f, 256, 280, 7);
    KraftRun(f, 280, 288, 8);
    Pow2Fixed();
  }

  lemma Pow2Fixed()
    ensures Pow2(6) == 64 && Pow2(7) == 128 && Pow2(8) == 256 && Pow2(10) == 1024 && Pow2(15) == 32768
  {
    assert Pow2(5) == 32;
    assert Pow2(6) == 64 && Pow2(7) == 128;
    assert Pow2(8) == 256;
    Pow2Add(5, 5);
    Pow2Add(10, 5);
  }

  lemma {:induction false} DistOffset(L: nat)
    requires L <= 5
    ensures Offset(FixedDists(), L) == 0
  {
    if L > 0 {
      DistOffset(L - 1);
      DistCount(L - 1);
    }
  }

  lemma DistRank(s: nat, L: nat)
    requires s <= 32
    ensures Count(FixedDists()[..s], L) == if L == 5 then s else 0
  {
    FixedRuns();
    assert FixedDists()[..0] == [];
    CountRun(FixedDists(), 0, s, 5, L);
  }

  lemma DistCount(L: nat)
    ensures Cnt(FixedDists(), L) == if L == 5 then 32 else 0
  {
    DistRank(32, L);
    assert FixedDists()[..32] == FixedDists();
  }

  lemma DistComplete()
    ensures Complete(FixedDists())
  {
    FixedRuns();
    assert FixedDists()[..0] == [] && FixedDists()[..32] == FixedDists();
    KraftRun(FixedDists(), 0, 32, 5);
    Pow2Fixed();
  }

  lemma FixedSlot(s: nat)
    requires s < 288
    ensures Slot(FixedLits(), s) == if s < 144 then 24 + s else if s < 256 then 176 + (s - 144)
      else if s < 280 then s - 256 else 168 + (s - 280)
  {
    FixedRank(s, FixedLits()[s]);
    FixedOffset(FixedLits()[s]);
  }

  lemma DistSlot(s: nat)
    requires s < 32
    ensures Slot(FixedDists(), s) == s
  {
    DistRank(s, 5);
    DistOffset(5);
  }

  /** build_static_huff_trees. */
  method BuildStatic(lt: HuffTree, dt: HuffTree)
    requires lt.Valid() && dt.Valid() && lt != dt
    requires lt.counts != dt.counts && lt.counts != dt.symbols && lt.symbols != dt.counts && lt.symbols != dt.symbols
    modifies lt, dt, lt.counts, lt.symbols, dt.counts, dt.symbols
    ensures lt.Decodes(FixedLits()) && dt.Decodes(FixedDists())
    ensures lt.maxSym == 285 && dt.maxSym == 29
  {
    hide Count, Offset, Kraft, FixedLits, FixedDists, Slot;
    BuildLits(lt);
    BuildDists(dt);
  }

  method BuildLits(lt: HuffTree)
    requires lt.Valid()
    modifies lt, lt.counts, lt.symbols
    ensures lt.Decodes(FixedLits()) && lt.maxSym == 285
  {
    hide Count, Offset, Kraft, FixedLits, Slot, Complete;
    for i := 0 to 16
      invariant forall j | 0 <= j < i :: lt.counts[j] == 0
    {
      lt.counts[i] := 0;
    }
    lt.counts[7], lt.counts[8], lt.counts[9] := 24, 152, 112;
    ghost var c := lt.counts[..];
    for i := 0 to 24
      invariant lt.counts[..] == c
      invariant forall j | 0 <= j < i :: lt.symbols[j] == 256 + j
    {
      lt.symbols[i] := 256 + i;
    }
    for i := 0 to 144
      invariant lt.counts[..] == c
      invariant forall j | 0 <= j < 24 :: lt.symbols[j] == 256 + j
      invariant forall j | 24 <= j < 24 + i :: lt.symbols[j] == j - 24
    {
      lt.symbols[24 + i] := i;
    }
    for i := 0 to 8
      invariant lt.counts[..] == c
      invariant forall j | 0 <= j < 24 :: lt.symbols[j] == 256 + j
      invariant forall j | 24 <= j < 168 :: lt.symbols[j] == j - 24
      invariant forall j | 168 <= j < 168 + i :: lt.symbols[j] == 280 + (j - 168)
    {
      lt.symbols[24 + 144 + i] := 280 + i;
    }
    for i := 0 to 112
      invariant lt.counts[..] == c
      invariant forall j | 0 <= j < 24 :: lt.symbols[j] == 256 + j
      invariant forall j | 24 <= j < 168 :: lt.symbols[j] == j - 24
      invariant forall j | 168 <= j < 176 :: lt.symbols[j] == 280 + (j - 168)
      invariant forall j | 176 <= j < 176 + i :: lt.symbols[j] == 144 + (j - 176)
    {
      lt.symbols[24 + 144 + 8 + i] := 144 + i;
    }
    lt.maxSym := 285;
    FixedComplete();
    assert forall L | 0 <= L <= MAX_BITS :: lt.counts[L] == c[L];
    forall L | 0 <= L <= MAX_BITS ensures lt.counts[L] == Cnt(FixedLits(), L) { FixedCount(L); }
    forall s | 0 <= s < 288 ensures Slot(FixedLits(), s) < 288
      && lt.symbols[Slot(FixedLits(), s)] == s { FixedSlot(s); }
  }

  method BuildDists(dt: HuffTree)
    requires dt.Valid()
    modifies dt, dt.counts, dt.symbols
    ensures dt.Decodes(FixedDists()) && dt.maxSym == 29
  {
    hide Count, Offset, Kraft, FixedDists, Slot, Complete;
    for i := 0 to 16
      invariant forall j | 0 <= j < i :: dt.counts[j] == 0
    {
      dt.counts[i] := 0;
    }
    dt.counts[5] := 32;
    ghost var c := dt.counts[..];
    for i := 0 to 32
      invariant dt.counts[..] == c
      invariant forall j | 0 <= j < i :: dt.symbols[j] == j
    {
      dt.symbols[i] := i;
    }
    dt.maxSym := 29;
    DistComplete();
    assert forall L | 0 <= L <= MAX_BITS :: dt.counts[L] == c[L];
    forall L | 0 <= L <= MAX_BITS ensures dt.counts[L] == Cnt(FixedDists(), L) { DistCount(L); }
    forall s | 0 <= s < 32 ensures Slot(FixedDists(), s) < 288
      && dt.symbols[Slot(FixedDists(), s)] == s { DistSlot(s); }
  }
}
