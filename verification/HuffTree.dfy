/** Decoding tables and the counting decoder (codec-deflate/huff.h). */
module HuffTrees {
  import opened Bits
  import opened Huffman
  import opened BitReader

  const MAX_SYMBOLS: nat := 288

  datatype BuildResult = Built | NotEnoughTableSpace | InvalidCode

  class HuffTree {
    const counts: array<nat>
    const symbols: array<nat>
    var maxSym: int

    ghost predicate Valid()
      reads this
    {
      counts != symbols && counts.Length == MAX_BITS + 1 && symbols.Length == MAX_SYMBOLS
    }

    /** The tables decode the canonical code of `ls`. */
    ghost predicate Decodes(ls: Lengths)
      reads this, counts, symbols
    {
      Valid() && Complete(ls) && TablesFor(counts[..], symbols[..], ls)
    }

    constructor ()
      ensures Valid() && fresh(counts) && fresh(symbols)
    {
      counts := new nat[MAX_BITS + 1](i => 0);
      symbols := new nat[MAX_SYMBOLS](i => 0);
      maxSym := -1;
    }

    /** Counts the codes of each length. */
    method CountLengths(ls: seq<nat>)
      requires Valid() && |ls| <= MAX_SYMBOLS && ShortLengths(ls)
      modifies this, counts
      ensures forall L | 0 <= L <= MAX_BITS :: counts[L] == Cnt(ls, L)
      ensures maxSym == MaxSym(ls)
    {
      var i := 0;
      while i < MAX_BITS + 1
        invariant 0 <= i <= MAX_BITS + 1
        invariant forall j | 0 <= j < i :: counts[j] == 0
      {
        counts[i] := 0;
        i := i + 1;
      }
      maxSym := -1;
      i := 0;
      while i < |ls|
        invariant 0 <= i <= |ls|
        invariant forall L | 0 <= L <= MAX_BITS :: counts[L] == Cnt(ls[..i], L)
        invariant maxSym == MaxSym(ls[..i])
      {
        assert ls[..i + 1][..i] == ls[..i] && ls[..i + 1][i] == ls[i];
        if ls[i] != 0 {
          maxSym := i;
          counts[ls[i]] := counts[ls[i]] + 1;
        }
        i := i + 1;
      }
      assert ls[..|ls|] == ls;
    }

    /** Computes the offset table and checks that no length is over-subscribed. */
    method Offsets(ls: seq<nat>, offs: array<nat>) returns (ok: bool, available: int, numCodes: nat)
      requires Valid() && ShortLengths(ls) && offs.Length == MAX_BITS + 1 && offs != counts && offs != symbols
      requires forall L | 0 <= L <= MAX_BITS :: counts[L] == Cnt(ls, L)
      modifies offs
      ensures !ok ==> Kraft(ls) > Pow2(MAX_BITS)
      ensures ok ==> available == 2 * (Pow2(MAX_BITS) - Kraft(ls)) && available >= 0 && numCodes == Codes(ls)
      ensures ok ==> forall L | 0 <= L <= MAX_BITS :: offs[L] == Offset(ls, L)
    {
      available, numCodes := 1, 0;
      var i := 0;
      while i < MAX_BITS + 1
        invariant 0 <= i <= MAX_BITS + 1
        invariant available == Avail(ls, i) && available >= 0 && numCodes == Offset(ls, i)
        invariant forall L | 0 <= L < i :: offs[L] == Offset(ls, L)
      {
        var used := counts[i];
        if used > available {
          OverMeansBigKraft(ls, i);
          return false, available, numCodes;
        }
        AvailStep(ls, i);
        available := 2 * (available - used);
        offs[i] := numCodes;
        numCodes := numCodes + used;
        i := i + 1;
      }
      KraftOfAvail(ls);
      OffsetIsCodes(ls);
      ok := true;
    }

    /** Distribution sort of the symbols by code. */
    method Fill(ls: seq<nat>, offs: array<nat>)
      requires Valid() && |ls| <= MAX_SYMBOLS && ShortLengths(ls)
      requires offs.Length == MAX_BITS + 1 && offs != counts && offs != symbols
      requires forall L | 0 <= L <= MAX_BITS :: offs[L] == Offset(ls, L)
      modifies symbols, offs
      ensures forall s | 0 <= s < |ls| && Coded(ls, s) :: Slot(ls, s) < MAX_SYMBOLS && symbols[Slot(ls, s)] == s
    {
      FillStart(ls, offs[..], symbols[..]);
      var i: nat := 0;
      while i < |ls|
        invariant i <= |ls| && Filled(ls, i, offs[..], symbols[..])
      {
        hide Filled, Coded, Count, Slot, Offset;
        if ls[i] != 0 {
          FillStep(ls, i, offs[..], symbols[..]);
          ghost var o, s := offs[..], symbols[..];
          symbols[offs[ls[i]]] := i;
          offs[ls[i]] := offs[ls[i]] + 1;
          assert symbols[..] == s[o[ls[i]] := i] && offs[..] == o[ls[i] := o[ls[i]] + 1];
        } else {
          FillSkip(ls, i, offs[..], symbols[..]);
        }
        i := i + 1;
      }
    }

    /** build_huff_tree. */
    method Build(ls: seq<nat>) returns (r: BuildResult)
      requires Valid() && |ls| <= MAX_SYMBOLS && ShortLengths(ls)
      modifies this, counts, symbols
      ensures r == Built <==> Accepted(ls)
      ensures r == NotEnoughTableSpace ==> Kraft(ls) > Pow2(MAX_BITS)
      ensures r == Built && Codes(ls) > 0 ==> Decodes(Effective(ls))
      ensures maxSym == MaxSym(ls)
    {
      hide Count, Kraft, Codes, Slot, Offset, Pow2, MaxSym;
      CountLengths(ls);
      var offs := new nat[MAX_BITS + 1](i => 0);
      var ok, available, numCodes := Offsets(ls, offs);
      KraftOfFew(ls);
      if !ok { return NotEnoughTableSpace; }
      if (numCodes > 1 && available > 0) || (numCodes == 1 && counts[1] != 1) {
        return InvalidCode;
      }
      Fill(ls, offs);
      if numCodes == 1 {
        LonePatch(counts[..], symbols[..], ls);
        counts[1] := 2;
        symbols[1] := maxSym + 1;
      }
      return Built;
    }

    /** huff_decoder_next: the symbol whose code comes next is returned, and exactly its code is consumed. */
    method Next(r: IoRBits, ghost ls: Lengths) returns (s: nat)
      requires Decodes(ls) && |ls| <= MAX_SYMBOLS + 1
      requires r.Valid() && r.bitcount < 8 && HasCode(ls, r.Rest())
      modifies r
      ensures r.Valid() && r.bitcount < 8 && r.data == old(r.data)
      ensures Coded(ls, s) && CodeBits(ls, s) <= old(r.Rest())
      ensures r.Rest() == old(r.Rest())[ls[s]..]
    {
      hide Lsb, ByteBits, Kraft, Count, TablesFor, FromMsb, First, Offset, Cnt, Complete, HasCode, FromLsb;
      Unfold(ls, r.Rest(), 1);
      SomeBit(ls, r.Rest());
      ghost var bits := r.Rest();
      var base, offs, len := 0, 0, 1;
      while true
        invariant 1 <= len <= MAX_BITS
        invariant r.Valid() && r.bitcount < 8 && r.data == old(r.data)
        invariant len - 1 < |bits| && r.Rest() == bits[len - 1..]
        invariant FromMsb(bits[..len - 1]) >= First(ls, len - 1) + Cnt(ls, len - 1)
        invariant offs == FromMsb(bits[..len - 1]) - First(ls, len - 1) - Cnt(ls, len - 1)
        invariant base == Offset(ls, len)
        decreases MAX_BITS - len
      {
        ghost var p := bits[..len];
        assert bits[len - 1..][1..] == bits[len..];
        Unfold(ls, bits, len);
        var b := r.Take(1);
        OneBit(bits[len - 1..]);
        offs := 2 * offs + b;
        assert offs == FromMsb(p) - First(ls, len);
        CountOf(counts[..], symbols[..], ls, len);
        if offs < counts[len] {
          ghost var t := StopsAtCode(ls, p);
          SymbolOf(counts[..], symbols[..], ls, t);
          assert base + offs == Slot(ls, t);
          return symbols[base + offs];
        }
        GoesOn(ls, bits, len);
        base := base + counts[len];
        offs := offs - counts[len];
        len := len + 1;
      }
    }
  }

  /** One turn of the decoder in numbers. */
  /** The first i symbols are in their slots, and the offsets point behind them. */
  ghost predicate Filled(ls: Lengths, i: nat, offs: seq<nat>, symbols: seq<nat>) {
    && i <= |ls| && |offs| == MAX_BITS + 1 && |symbols| >= MAX_SYMBOLS
    && (forall L | 0 < L <= MAX_BITS :: offs[L] == Offset(ls, L) + Count(ls[..i], L))
    && (forall s: nat | s < i && Coded(ls, s) :: Slot(ls, s) < MAX_SYMBOLS && symbols[Slot(ls, s)] == s)
  }

  lemma FillStart(ls: Lengths, offs: seq<nat>, symbols: seq<nat>)
    requires |offs| == MAX_BITS + 1 && |symbols| >= MAX_SYMBOLS && forall L | 0 <= L <= MAX_BITS ::
      offs[L] == Offset(ls, L)
    ensures Filled(ls, 0, offs, symbols)
  {
  }

  lemma CountNext(ls: Lengths, i: nat, L: nat)
    requires i < |ls|
    ensures Count(ls[..i + 1], L) == Count(ls[..i], L) + (if ls[i] == L then 1 else 0)
  {
    assert ls[..i + 1][..i] == ls[..i];
  }

  lemma FillStep(ls: Lengths, i: nat, offs: seq<nat>, symbols: seq<nat>)
    requires Filled(ls, i, offs, symbols) && i < |ls| <= MAX_SYMBOLS && ShortLengths(ls) && ls[i] != 0
    ensures ls[i] < |offs| && offs[ls[i]] < MAX_SYMBOLS <= |symbols|
    ensures Filled(ls, i + 1, offs[ls[i] := offs[ls[i]] + 1], symbols[offs[ls[i]] := i])
  {
    SlotInRange(ls, i);
    assert offs[ls[i]] == Slot(ls, i);
    forall s: nat | s < i && Coded(ls, s) ensures Slot(ls, s) != Slot(ls, i) {
      SlotsDiffer(ls, s, i);
    }
    forall L | 0 < L <= MAX_BITS ensures Count(ls[..i + 1], L) == Count(ls[..i], L) + (if ls[i] == L then 1 else 0) {
      CountNext(ls, i, L);
    }
    hide Count, Slot, Offset;
  }

  lemma FillSkip(ls: Lengths, i: nat, offs: seq<nat>, symbols: seq<nat>)
    requires Filled(ls, i, offs, symbols) && i < |ls| && ls[i] == 0
    ensures Filled(ls, i + 1, offs, symbols)
  {
    forall L | 0 < L <= MAX_BITS ensures Count(ls[..i + 1], L) == Count(ls[..i], L) {
      CountNext(ls, i, L);
    }
    hide Count, Slot, Offset;
  }

  lemma Unfold(ls: Lengths, bits: seq<bool>, len: nat)
    requires 1 <= len
    ensures First(ls, len) == 2 * (First(ls, len - 1) + Cnt(ls, len - 1))
    ensures Offset(ls, len + 1) == Offset(ls, len) + Cnt(ls, len)
    ensures len <= |bits| ==> FromMsb(bits[..len]) == 2 * FromMsb(bits[..len - 1]) + (if bits[len - 1] then 1 else 0)
    ensures len == 1 ==> FromMsb(bits[..0]) == 0 && First(ls, 0) == 0 && Cnt(ls, 0) == 0 && Offset(ls, 1) == 0
  {
    OffsetOne(ls);
    if len <= |bits| { assert bits[..len][..len - 1] == bits[..len - 1]; }
  }

  lemma SomeBit(ls: Lengths, bits: seq<bool>)
    requires HasCode(ls, bits)
    ensures |bits| >= 1
  {
  }

  /** Some code is a prefix of the bits: the stream does not end inside a symbol. */
  ghost predicate HasCode(ls: Lengths, bits: seq<bool>) {
    exists s: nat :: Coded(ls, s) && CodeBits(ls, s) <= bits
  }

  lemma OneBit(b: seq<bool>)
    requires |b| >= 1
    ensures FromLsb(b[..1]) == if b[0] then 1 else 0
  {
    assert b[..1] == [b[0]];
    assert FromLsb([b[0]][1..]) == 0;
  }

  lemma CountOf(counts: seq<nat>, symbols: seq<nat>, ls: Lengths, L: nat)
    requires TablesFor(counts, symbols, ls) && L <= MAX_BITS
    ensures L < |counts| && counts[L] == Cnt(ls, L)
  {
  }

  lemma SymbolOf(counts: seq<nat>, symbols: seq<nat>, ls: Lengths, s: nat)
    requires TablesFor(counts, symbols, ls) && Coded(ls, s)
    ensures Slot(ls, s) < |symbols| && symbols[Slot(ls, s)] == s
  {
  }

  /** Past all codes of length len, the next code is longer: there is another bit, and len is below 15. */
  lemma GoesOn(ls: Lengths, bits: seq<bool>, len: nat)
    requires Complete(ls) && HasCode(ls, bits) && 1 <= len <= MAX_BITS && len <= |bits|
    requires FromMsb(bits[..len]) >= First(ls, len) + Cnt(ls, len)
    ensures len < MAX_BITS && len < |bits|
  {
    var s: nat :| Coded(ls, s) && CodeBits(ls, s) <= bits;
    CodeInRange(ls, s);
    assert bits[..ls[s]] == CodeBits(ls, s);
    if ls[s] < len {
      assert bits[..len][..ls[s]] == bits[..ls[s]];
      PrefixAbove(ls, bits[..len], ls[s]);
    }
  }

  lemma OffsetOne(ls: Lengths)
    ensures Offset(ls, 1) == 0
  {
    assert Offset(ls, 0) == 0;
  }

  lemma {:induction false} Pow2Grows(a: nat, b: nat)
    requires a <= b
    ensures Pow2(a) <= Pow2(b)
  {
    if a < b { Pow2Grows(a, b - 1); }
  }

  lemma Pow2Doubles(n: nat)
    ensures Pow2(n + 1) == 2 * Pow2(n) && Pow2(n) >= 1
  {
  }

  /** Fewer than two codes cannot fill the code space. */
  lemma {:induction false} KraftOfFew(ls: Lengths)
    requires ShortLengths(ls)
    ensures Codes(ls) == 0 ==> Kraft(ls) == 0
    ensures Codes(ls) == 1 ==> Kraft(ls) <= Pow2(MAX_BITS - 1)
    ensures Pow2(MAX_BITS - 1) < Pow2(MAX_BITS)
  {
    hide Pow2;
    Pow2Doubles(MAX_BITS - 1);
    if ls != [] {
      KraftOfFew(ls[..|ls| - 1]);
      var l := ls[|ls| - 1];
      if l != 0 { Pow2Grows(MAX_BITS - l, MAX_BITS - 1); }
    }
  }

  lemma {:induction false} ZerosCount(z: Lengths, L: nat)
    requires Codes(z) == 0
    ensures L > 0 ==> Count(z, L) == 0
    ensures forall i | 0 <= i < |z| :: z[i] == 0
  {
    if z != [] { ZerosCount(z[..|z| - 1], L); }
  }

  lemma {:induction false} ZeroTail(ls: Lengths, m: nat)
    requires m <= |ls| && forall i | m <= i < |ls| :: ls[i] == 0
    ensures Codes(ls) == Codes(ls[..m]) && forall L: nat | L > 0 :: Count(ls, L) == Count(ls[..m], L)
  {
    if m == |ls| {
      assert ls[..m] == ls;
    } else {
      ZeroTail(ls[..|ls| - 1], m);
      assert ls[..|ls| - 1][..m] == ls[..m];
    }
  }

  lemma KraftSnoc(ls: Lengths, l: nat)
    requires ShortLengths(ls) && 0 < l <= MAX_BITS
    ensures ShortLengths(ls + [l]) && Kraft(ls + [l]) == Kraft(ls) + Pow2(MAX_BITS - l)
  {
    hide Pow2;
    assert (ls + [l])[..|ls|] == ls;
  }

  /** One code of length one: with the partner symbol the code is complete and the patched tables decode it. */
  lemma LoneCode(ls: Lengths, m: int)
    requires ShortLengths(ls) && Codes(ls) == 1 && Count(ls, 1) == 1 && m == MaxSym(ls)
    ensures 0 <= m < |ls| && ls[m] == 1 && Coded(ls, m) && Slot(ls, m) == 0
    ensures var e := ls[..m + 1] + [1];
            && Complete(e)
            && (forall L: nat | L > 1 :: Cnt(e, L) == Cnt(ls, L)) && Cnt(e, 1) == 2
            && (forall s: nat | s < |e| && Coded(e, s) :: s == m || s == m + 1)
            && Slot(e, m) == 0 && Slot(e, m + 1) == 1
  {
    hide Pow2;
    Pow2Doubles(MAX_BITS - 1);
    if m == -1 {
      ZeroTail(ls, 0);
    }
    ZeroTail(ls, m + 1);
    var h := ls[..m + 1];
    var z := ls[..m];
    assert h[..m] == z;
    assert Codes(z) == 0;
    forall L: nat ensures L > 0 ==> Count(z, L) == 0 { ZerosCount(z, L); }
    ZerosCount(z, 1);
    assert ls[m] == 1;
    KraftOfFew(z);
    assert ShortLengths(h);
    var e := h + [1];
    assert e[..|e| - 1] == h && e[..m] == z && e[..m + 1] == h;
    KraftSnoc(z, 1);
    KraftSnoc(h, 1);
    assert h == z + [1];
    hide Kraft;
    forall L: nat | L > 1 ensures Cnt(e, L) == Cnt(ls, L) {
      assert Count(e, L) == Count(h, L);
    }
    assert Count(e, 1) == Count(h, 1) + 1;
    hide Count, Codes, MaxSym;
    OffsetOne(ls);
    OffsetOne(e);
    assert forall s: nat | s < m :: e[s] == z[s];
  }

  lemma LonePatch(counts: seq<nat>, symbols: seq<nat>, ls: Lengths)
    requires ShortLengths(ls) && Codes(ls) == 1 && Count(ls, 1) == 1 && TablesFor(counts, symbols, ls) && |symbols| >= 2
    ensures MaxSym(ls) >= 0
    ensures Complete(Effective(ls)) && TablesFor(counts[1 := 2], symbols[1 := MaxSym(ls) + 1], Effective(ls))
  {
    hide Count, Kraft, Pow2, Codes, Offset, Slot, MaxSym;
    LoneCode(ls, MaxSym(ls));
  }
}
