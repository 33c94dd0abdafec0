/** The header of a dynamic Huffman block (section 3.2.7 of RFC 1951) and its decoder in codec-deflate/inflate.c. */
module DynamicHeader {
  import opened Bits
  import opened Huffman
  import opened BitReader
  import opened HuffTrees
  import opened DeflateFormat
  import opened Inflate

  const PRECODE_SYMBOLS: nat := 19
  const MAX_LITLEN: nat := 286
  const MAX_OFFSET: nat := 30

  /** Order in which the code lengths of the precode are stored. */
  const ORDER: seq<nat> := [16, 17, 18, 0, 8, 7, 9, 6, 10, 5, 11, 4, 12, 3, 13, 2, 14, 1, 15]

  function Order(i: nat): (r: nat)
    requires i < PRECODE_SYMBOLS
    ensures r < PRECODE_SYMBOLS
  {
    ORDER[i]
  }

  /** The three run symbols, no code, and then the lengths from the middle outwards. */
  lemma OrderOutwards(i: nat)
    requires i < 19
    ensures Order(i) == if i < 3 then 16 + i else if i == 3 then 0 else if i % 2 == 0 then 6 + i / 2 else 9 - i / 2
  {
  }

  /** Run-length coded code lengths: one length, the previous length again, or zeros. */
  datatype LenOp = One(len: nat) | Again(extra: nat) | Zeros(extra: nat) | ManyZeros(extra: nat)

  function OpSymbol(op: LenOp): nat {
    match op case One(l) => l case Again(_) => 16 case Zeros(_) => 17 case ManyZeros(_) => 18
  }

  function OpWidth(op: LenOp): (r: nat)
    ensures r <= 7
  {
    match op case One(_) => 0 case Again(_) => 2 case Zeros(_) => 3 case ManyZeros(_) => 7
  }

  function OpExtra(op: LenOp): nat {
    match op case One(_) => 0 case Again(e) => e case Zeros(e) => e case ManyZeros(e) => e
  }

  function OpCount(op: LenOp): (r: nat)
    ensures r >= 1
  {
    match op case One(_) => 1 case Again(e) => e + 3 case Zeros(e) => e + 3 case ManyZeros(e) => e + 11
  }

  ghost predicate OpOk(pre: Lengths, op: LenOp) {
    (op.One? ==> op.len <= 15) && OpExtra(op) < Pow2(OpWidth(op)) && Coded(pre, OpSymbol(op))
  }

  function OpBits(pre: Lengths, op: LenOp): seq<bool>
    requires OpSymbol(op) < |pre|
  {
    CodeBits(pre, OpSymbol(op)) + Lsb(OpExtra(op), OpWidth(op))
  }

  function Repeated(v: nat, n: nat): (r: seq<nat>)
    ensures |r| == n && forall i | 0 <= i < n :: r[i] == v
  {
    seq(n, i => v)
  }

  /** The code lengths after one more operation. */
  function Apply(acc: Lengths, op: LenOp): (r: Lengths)
    ensures |r| == |acc| + OpCount(op) && acc <= r
  {
    match op
    case One(l) => acc + [l]
    case Again(e) => acc + Repeated(if acc == [] then 0 else acc[|acc| - 1], e + 3)
    case Zeros(e) => acc + Repeated(0, e + 3)
    case ManyZeros(e) => acc + Repeated(0, e + 11)
  }

  /** What each operation stands for: the previous length 3 to 6 more times, 3 to 10 zeros, or 11 to 138 zeros. */
  lemma RunLengths(acc: Lengths, e: nat)
    ensures e < Pow2(OpWidth(Again(e))) <==> e + 3 <= 6
    ensures acc != [] ==> Apply(acc, Again(e)) == acc + seq(e + 3, _ => acc[|acc| - 1])
    ensures e < Pow2(OpWidth(Zeros(e))) <==> e + 3 <= 10
    ensures Apply(acc, Zeros(e)) == acc + seq(e + 3, _ => 0)
    ensures e < Pow2(OpWidth(ManyZeros(e))) <==> e + 11 <= 138
    ensures Apply(acc, ManyZeros(e)) == acc + seq(e + 11, _ => 0)
    ensures Apply(acc, One(e)) == acc + [e]
  {
    assert Pow2(4) == 16;
    Pow2Add(4, 3);
  }

  function ApplyAll(acc: Lengths, ops: seq<LenOp>): (r: Lengths)
    ensures |r| >= |acc| + |ops| && acc <= r
    decreases |ops|
  {
    if ops == [] then acc else ApplyAll(Apply(acc, ops[0]), ops[1..])
  }

  function OpsBits(pre: Lengths, ops: seq<LenOp>): seq<bool>
    requires forall i | 0 <= i < |ops| :: OpSymbol(ops[i]) < |pre|
  {
    if ops == [] then [] else OpBits(pre, ops[0]) + OpsBits(pre, ops[1..])
  }

  /** Three bits for each of the precode lengths i..n, in storage order. */
  function PreBits(pre: Lengths, i: nat, n: nat): seq<bool>
    requires |pre| == PRECODE_SYMBOLS && i <= n <= PRECODE_SYMBOLS
    decreases n - i
  {
    if i == n then [] else Lsb(pre[Order(i)], 3) + PreBits(pre, i + 1, n)
  }

  /** A header: sizes, precode lengths, and operations whose last one reaches the announced number of lengths. */
  datatype Header = Header(hlit: nat, hdist: nat, hclen: nat, pre: Lengths, ops: seq<LenOp>)

  ghost predicate HeaderShape(d: Header) {
    && 257 <= d.hlit <= 288 && 1 <= d.hdist <= 32 && 4 <= d.hclen <= 19
    && |d.pre| == 19
    && (forall i | 0 <= i < PRECODE_SYMBOLS :: d.pre[i] < 8)
    && (forall i | d.hclen <= i < PRECODE_SYMBOLS :: d.pre[Order(i)] == 0)
    && Codes(d.pre) > 0
    && d.ops != [] && !d.ops[0].Again?
    && (forall i | 0 <= i < |d.ops| :: OpOk(d.pre, d.ops[i]) && OpSymbol(d.ops[i]) < |Effective(d.pre)|)
    && |ApplyAll([], d.ops[..|d.ops| - 1])| < d.hlit + d.hdist <= |ApplyAll([], d.ops)|
  }

  ghost function AllLengths(d: Header): Lengths {
    ApplyAll([], d.ops)
  }

  ghost function HeaderBits(d: Header): seq<bool>
    requires HeaderShape(d)
  {
    Lsb(d.hlit - 257, 5)
      + (Lsb(d.hdist - 1, 5) + (Lsb(d.hclen - 4, 4) + (PreBits(d.pre, 0, d.hclen) + OpsBits(Effective(d.pre), d.ops))))
  }

  ghost function LitLengths(d: Header): Lengths
    requires HeaderShape(d)
  {
    AllLengths(d)[..d.hlit]
  }

  ghost function DistLengths(d: Header): Lengths
    requires HeaderShape(d)
  {
    AllLengths(d)[d.hlit..d.hlit + d.hdist]
  }

  /** What a header must satisfy to be usable. */
  ghost predicate HeaderOk(d: Header)
    requires HeaderShape(d)
  {
    && d.hlit <= 286 && d.hdist <= 30
    && ShortLengths(d.pre) && Accepted(d.pre)
    && |AllLengths(d)| == d.hlit + d.hdist
    && BothOk(d)
  }

  /** Both codes are usable, and there is an end-of-block code. */
  ghost predicate BothOk(d: Header)
    requires HeaderShape(d)
  {
    && AllLengths(d)[256] != 0
    && ShortLengths(LitLengths(d)) && Accepted(LitLengths(d))
    && ShortLengths(DistLengths(d)) && Accepted(DistLengths(d))
  }

  // ----- Facts ---------------------------------------------------------------------------------

  lemma OrderOnto(k: nat) returns (j: nat)
    requires k < PRECODE_SYMBOLS
    ensures j < PRECODE_SYMBOLS && Order(j) == k
  {
    var inverse: seq<nat> := [3, 17, 15, 13, 11, 9, 7, 5, 4, 6, 8, 10, 12, 14, 16, 18, 0, 1, 2];
    j := inverse[k];
  }

  lemma OrderInjective(i: nat, j: nat)
    requires i < j < PRECODE_SYMBOLS
    ensures Order(i) != Order(j)
  {
  }

  lemma {:induction false} LengthsShort(pre: Lengths, acc: Lengths, ops: seq<LenOp>)
    requires ShortLengths(acc) && forall i | 0 <= i < |ops| :: OpOk(pre, ops[i])
    ensures ShortLengths(ApplyAll(acc, ops))
    decreases |ops|
  {
    if ops != [] {
      assert OpOk(pre, ops[0]);
      LengthsShort(pre, Apply(acc, ops[0]), ops[1..]);
    }
  }

  lemma {:induction false} ApplySplit(acc: Lengths, ops: seq<LenOp>, k: nat)
    requires k <= |ops|
    ensures ApplyAll(acc, ops) == ApplyAll(ApplyAll(acc, ops[..k]), ops[k..])
    decreases k
  {
    if k > 0 {
      ApplySplit(Apply(acc, ops[0]), ops[1..], k - 1);
      assert ops[..k][1..] == ops[1..][..k - 1] && ops[1..][k - 1..] == ops[k..];
    } else {
      assert ops[..0] == [] && ops[0..] == ops;
    }
  }

  lemma CodedInEffective(pre: Lengths, s: nat)
    requires Coded(pre, s)
    ensures s < |Effective(pre)| && Effective(pre)[s] == pre[s]
  {
    assert s <= MaxSym(pre);
  }

  lemma PrefixLengths(ops: seq<LenOp>, i: nat, j: nat)
    requires i <= j <= |ops|
    ensures |ApplyAll([], ops[..i])| <= |ApplyAll([], ops[..j])|
  {
    ApplySplit([], ops[..j], i);
    assert ops[..j][..i] == ops[..i];
  }

  /** Where the loop over the operations stands. */
  lemma LoopPosition(d: Header, k: nat)
    requires HeaderShape(d) && k <= |d.ops|
    ensures |ApplyAll([], d.ops[..k])| < d.hlit + d.hdist ==> k < |d.ops|
    ensures |ApplyAll([], d.ops[..k])| == d.hlit + d.hdist ==> k == |d.ops|
  {
    assert d.ops[..|d.ops|] == d.ops;
    if k < |d.ops| { PrefixLengths(d.ops, k, |d.ops| - 1); }
  }

  // ----- Decoding ------------------------------------------------------------------------------

  /** The precode lengths, stored in their special order. */
  method ReadPrecode(r: IoRBits, lengths: array<nat>, hclen: nat, ghost pre: Lengths, ghost rest: seq<bool>)
    requires r.Valid() && r.bitcount < 8 && lengths.Length == 320
    requires |pre| == PRECODE_SYMBOLS && hclen <= PRECODE_SYMBOLS && r.Rest() == PreBits(pre, 0, hclen) + rest
    requires forall i | 0 <= i < PRECODE_SYMBOLS :: pre[i] < 8
    requires forall i | hclen <= i < PRECODE_SYMBOLS :: pre[Order(i)] == 0
    modifies r, lengths
    ensures r.Valid() && r.bitcount < 8 && r.data == old(r.data) && r.Rest() == rest
    ensures lengths[..PRECODE_SYMBOLS] == pre
  {
    hide Lsb, Order, IoRBits.Rest, PreBits;
    for i := 0 to PRECODE_SYMBOLS
      invariant r.Valid() && r.bitcount < 8 && r.data == old(r.data) && r.Rest() == PreBits(pre, 0, hclen) + rest
      invariant forall j | 0 <= j < i :: lengths[j] == 0
    {
      lengths[i] := 0;
    }
    var i := 0;
    while i < hclen
      invariant 0 <= i <= hclen
      invariant r.Valid() && r.bitcount < 8 && r.data == old(r.data) && r.Rest() == PreBits(pre, i, hclen) + rest
      invariant forall j | 0 <= j < i :: lengths[Order(j)] == pre[Order(j)]
      invariant forall j | i <= j < PRECODE_SYMBOLS :: lengths[Order(j)] == 0
    {
      PreStep(pre, i, hclen, rest);
      var v := Value(r, 3, pre[Order(i)], PreBits(pre, i + 1, hclen) + rest);
      forall j | 0 <= j < PRECODE_SYMBOLS && j != i ensures Order(j) != Order(i) {
        if j < i { OrderInjective(j, i); } else { OrderInjective(i, j); }
      }
      lengths[Order(i)] := v;
      i := i + 1;
    }
    PreDone(pre, hclen, rest);
    forall k | 0 <= k < PRECODE_SYMBOLS ensures lengths[k] == pre[k] {
      var j := OrderOnto(k);
    }
  }

  lemma PreStep(pre: Lengths, i: nat, n: nat, rest: seq<bool>)
    requires |pre| == PRECODE_SYMBOLS && i < n <= PRECODE_SYMBOLS && pre[Order(i)] < 8
    ensures PreBits(pre, i, n) + rest == Lsb(pre[Order(i)], 3) + (PreBits(pre, i + 1, n) + rest)
    ensures pre[Order(i)] < Pow2(3)
  {
    hide Lsb, Order;
    Assoc(Lsb(pre[Order(i)], 3), PreBits(pre, i + 1, n), rest);
    Pow2Values();
  }

  lemma PreDone(pre: Lengths, n: nat, rest: seq<bool>)
    requires |pre| == PRECODE_SYMBOLS && n <= PRECODE_SYMBOLS
    ensures PreBits(pre, n, n) + rest == rest
  {
  }

  /** The length repeated by an operation. */
  function OpValue(op: LenOp, prev: nat): nat {
    match op case One(l) => l case Again(_) => prev case Zeros(_) => 0 case ManyZeros(_) => 0
  }

  lemma ApplyIsRepeat(acc: Lengths, op: LenOp)
    requires op.Again? ==> acc != []
    ensures Apply(acc, op) == acc + Repeated(OpValue(op, if acc == [] then 0 else acc[|acc| - 1]), OpCount(op))
  {
  }

  /** One operation: its symbol and its extra bits. */
  method ReadOp(r: IoRBits, tree: HuffTree, prev: nat, ghost pre: Lengths, ghost op: LenOp, ghost rest: seq<bool>)
    returns (value: nat, count: nat)
    requires tree.Decodes(Effective(pre)) && |Effective(pre)| <= MAX_SYMBOLS && OpOk(pre, op)
      && OpSymbol(op) < |Effective(pre)|
    requires r.Valid() && r.bitcount < 8 && r.Rest() == OpBits(Effective(pre), op) + rest
    modifies r
    ensures r.Valid() && r.bitcount < 8 && r.data == old(r.data) && r.Rest() == rest
    ensures value == OpValue(op, prev) && count == OpCount(op)
  {
    hide Lsb, IoRBits.Rest, CodeBits, Effective, Complete, TablesFor;
    ghost var extra := Lsb(OpExtra(op), OpWidth(op));
    CodedInEffective(pre, OpSymbol(op));
    Assoc(CodeBits(Effective(pre), OpSymbol(op)), extra, rest);
    var symbol := Symbol(r, tree, Effective(pre), OpSymbol(op), extra + rest);
    if symbol == 16 {
      count := Value(r, 2, OpExtra(op), rest);
      value, count := prev, count + 3;
    } else if symbol == 17 {
      count := Value(r, 3, OpExtra(op), rest);
      value, count := 0, count + 3;
    } else if symbol == 18 {
      count := Value(r, 7, OpExtra(op), rest);
      value, count := 0, count + 11;
    } else {
      assert extra == [] && extra + rest == rest;
      value, count := symbol, 1;
    }
  }

  /** The literal/length and distance code lengths. */
  method ReadLengths(r: IoRBits, tree: HuffTree, lengths: array<nat>, total: nat, ghost d: Header,
                     ghost more: seq<bool>) returns (ok: bool)
    requires HeaderShape(d) && total == d.hlit + d.hdist && lengths.Length == 320
    requires tree.Decodes(Effective(d.pre)) && |Effective(d.pre)| <= MAX_SYMBOLS
    requires lengths != tree.counts && lengths != tree.symbols
    requires r.Valid() && r.bitcount < 8 && r.Rest() == OpsBits(Effective(d.pre), d.ops) + more
    modifies r, lengths
    ensures r.Valid() && r.bitcount < 8 && r.data == old(r.data)
    ensures ok <==> |AllLengths(d)| == total
    ensures ok ==> lengths[..total] == AllLengths(d) && r.Rest() == more
  {
    hide Lsb, IoRBits.Rest, CodeBits, Effective, Complete, TablesFor, ApplyAll, Apply, OpBits, OpsBits, Pow2;
    var num := 0;
    ghost var k := 0;
    ghost var acc: Lengths := [];
    StartOps(d);
    while num < total
      invariant 0 <= k <= |d.ops| && acc == ApplyAll([], d.ops[..k]) && |acc| == num && num <= total
      invariant lengths[..num] == acc && (k > 0 ==> num > 0)
      invariant ApplyAll(acc, d.ops[k..]) == AllLengths(d)
      invariant r.Valid() && r.bitcount < 8 && r.data == old(r.data)
      invariant r.Rest() == OpsBits(Effective(d.pre), d.ops[k..]) + more
      decreases total - num
    {
      LoopPosition(d, k);
      ghost var op := d.ops[k];
      OpsStep(d, k, acc, more);
      var prev := if num > 0 then lengths[num - 1] else 0;
      var value, count := ReadOp(r, tree, prev, d.pre, op, OpsBits(Effective(d.pre), d.ops[k + 1..]) + more);
      if count > total - num {
        return false;
      }
      ApplyIsRepeat(acc, op);
      var i := 0;
      while i < count
        invariant 0 <= i <= count
        invariant lengths[..num] == acc
        invariant forall j | num <= j < num + i :: lengths[j] == value
        invariant r.Valid() && r.bitcount < 8 && r.data == old(r.data)
        invariant r.Rest() == OpsBits(Effective(d.pre), d.ops[k + 1..]) + more
      {
        lengths[num + i] := value;
        i := i + 1;
      }
      num := num + count;
      acc := Apply(acc, op);
      assert lengths[..num] == acc;
      k := k + 1;
    }
    LoopPosition(d, k);
    OpsDone(d, k, more);
    ok := true;
  }

  lemma StartOps(d: Header)
    requires HeaderShape(d)
    ensures d.ops[..0] == [] && d.ops[0..] == d.ops && ApplyAll([], []) == []
      && ApplyAll([], d.ops[0..]) == AllLengths(d)
  {
  }

  lemma OpsStep(d: Header, k: nat, acc: Lengths, more: seq<bool>)
    requires HeaderShape(d) && k < |d.ops| && acc == ApplyAll([], d.ops[..k])
      && ApplyAll(acc, d.ops[k..]) == AllLengths(d)
    ensures OpsBits(Effective(d.pre), d.ops[k..]) + more
         == OpBits(Effective(d.pre), d.ops[k]) + (OpsBits(Effective(d.pre), d.ops[k + 1..]) + more)
    ensures ApplyAll(Apply(acc, d.ops[k]), d.ops[k + 1..]) == AllLengths(d)
    ensures ApplyAll([], d.ops[..k + 1]) == Apply(acc, d.ops[k])
    ensures d.ops[k].Again? ==> acc != []
    ensures |acc| + OpCount(d.ops[k]) <= |AllLengths(d)|
  {
    hide OpBits, OpsBits, Apply, Effective, ApplyAll;
    OpsBitsStep(Effective(d.pre), d.ops, k, more);
    ApplyStep(acc, d.ops, k);
    if k == 0 { assert d.ops[..0] == []; }
  }

  lemma OpsBitsStep(pe: Lengths, ops: seq<LenOp>, k: nat, more: seq<bool>)
    requires k < |ops| && forall i | 0 <= i < |ops| :: OpSymbol(ops[i]) < |pe|
    ensures OpsBits(pe, ops[k..]) + more == OpBits(pe, ops[k]) + (OpsBits(pe, ops[k + 1..]) + more)
  {
    hide OpBits;
    assert ops[k..][1..] == ops[k + 1..];
    Assoc(OpBits(pe, ops[k]), OpsBits(pe, ops[k + 1..]), more);
  }

  lemma ApplyStep(acc: Lengths, ops: seq<LenOp>, k: nat)
    requires k < |ops| && acc == ApplyAll([], ops[..k])
    ensures ApplyAll(acc, ops[k..]) == ApplyAll(Apply(acc, ops[k]), ops[k + 1..])
    ensures ApplyAll([], ops[..k + 1]) == Apply(acc, ops[k])
    ensures k > 0 ==> acc != []
  {
    hide Apply;
    assert ops[k..][1..] == ops[k + 1..];
    ApplySplit([], ops[..k + 1], k);
    assert ops[..k + 1][..k] == ops[..k] && ops[..k + 1][k..] == [ops[k]];
    assert ApplyAll(acc, [ops[k]]) == ApplyAll(Apply(acc, ops[k]), [ops[k]][1..]);
  }

  lemma OpsDone(d: Header, k: nat, more: seq<bool>)
    requires HeaderShape(d) && k == |d.ops|
    ensures OpsBits(Effective(d.pre), d.ops[k..]) + more == more
    ensures ApplyAll([], d.ops[..k]) == AllLengths(d)
  {
    assert d.ops[..k] == d.ops && d.ops[k..] == [];
  }
}
