/** Whole DEFLATE streams: a list of blocks, its bits, its meaning, and the decompressor run on it
    (codec-deflate/inflate.c, deflate_decompress_block and deflate_decompress_stream). */
module InflateBlocks {
  import opened Bits
  import opened Huffman
  import opened BitReader
  import opened HuffTrees
  import opened Window
  import opened DeflateFormat
  import opened Inflate
  import opened FixedCodes
  import opened DynamicHeader
  import opened InflateStream

  datatype Block =
    | Stored(data: seq<Byte>)
    | Fixed(toks: seq<Token>)
    | Dynamic(header: Header, toks: seq<Token>)
    | Reserved

  ghost function LitCode(b: Block): Lengths {
    if b.Fixed? then FixedLits()
    else if b.Dynamic? && HeaderShape(b.header) then Effective(LitLengths(b.header))
    else []
  }

  ghost function DistCode(b: Block): Lengths {
    if b.Fixed? then FixedDists()
    else if b.Dynamic? && HeaderShape(b.header) then Effective(DistLengths(b.header))
    else []
  }

  /** Length symbols that the decoder refuses, given the largest symbols that the block declares. */
  ghost predicate RefusalsReal(litMax: int, distMax: int, toks: seq<Token>) {
    forall i | 0 <= i < |toks| && toks[i].Refused? ::
      toks[i].symbol > litMax || toks[i].symbol - 257 > 28 || distMax == -1
  }

  /** The parts of a block are in range; h is the output before it. Nothing is asked of a body whose header is
      refused. */
  ghost predicate BlockShape(b: Block, h: seq<Byte>) {
    match b
    case Stored(d) => |d| <= 65535
    case Fixed(toks) =>
      TokensOk(LitCode(b), DistCode(b), toks) && DeflateFormat.InReach(h, toks) && RefusalsReal(285, 29, toks)
    case Dynamic(d, toks) => HeaderShape(d) && (HeaderOk(d) ==> BodyShape(d, toks, h))
    case Reserved => true
  }

  ghost predicate BodyShape(d: Header, toks: seq<Token>, h: seq<Byte>)
    requires HeaderShape(d)
  {
    && TokensOk(Effective(LitLengths(d)), Effective(DistLengths(d)), toks) && DeflateFormat.InReach(h, toks)
    && Coded(Effective(LitLengths(d)), 256)
    && RefusalsReal(MaxSym(LitLengths(d)), MaxSym(DistLengths(d)), toks)
  }

  /** `bits` are the block, marked final or not, followed by `tail`. */
  ghost predicate Encodes(bits: seq<bool>, final: bool, b: Block, h: seq<Byte>, tail: seq<bool>) {
    && BlockShape(b, h)
    && |bits| >= 3 && bits[0] == final
    && var rest := bits[3..];
    match b
    case Stored(d) =>
      && bits[1..3] == [false, false]
      && rest[|rest| % 8..] == Lsb(|d|, 16) + Lsb(65535 - |d|, 16) + ByteBits(d) + tail
    case Fixed(toks) =>
      bits[1..3] == [true, false] && 256 < |LitCode(b)|
        && rest == BodyBits(LitCode(b), DistCode(b), toks) + tail
    case Dynamic(d, toks) =>
      && bits[1..3] == [false, true]
      && rest == HeaderBits(d) + (if HeaderOk(d) then BodyBits(LitCode(b), DistCode(b), toks) + tail else tail)
    case Reserved => bits[1..3] == [true, true]
  }

  /** Every copy uses a length symbol its block declares, and there is a distance code for it. */
  ghost predicate CopiesDeclared(d: Header, toks: seq<Token>)
    requires HeaderShape(d)
  {
    forall i | 0 <= i < |toks| && !toks[i].Literal? ::
      toks[i].Copy? && 257 + toks[i].lsym <= MaxSym(LitLengths(d)) && MaxSym(DistLengths(d)) != -1
  }

  ghost predicate NoneRefused(toks: seq<Token>) {
    forall i | 0 <= i < |toks| :: !toks[i].Refused?
  }

  /** Which well-shaped blocks the decompressor accepts. */
  ghost predicate BlockOk(b: Block) {
    match b
    case Stored(_) => true
    case Fixed(toks) => NoneRefused(toks)
    case Dynamic(d, toks) => HeaderShape(d) && HeaderOk(d) && CopiesDeclared(d, toks)
    case Reserved => false
  }

  /** The output after a block. */
  ghost function Meaning(h: seq<Byte>, b: Block): (r: seq<Byte>)
    requires BlockShape(b, h)
    ensures |r| >= |h|
  {
    match b
    case Stored(d) => h + d
    case Fixed(toks) => Expand(h, toks)
    case Dynamic(d, toks) => if HeaderOk(d) then Expand(h, toks) else h
    case Reserved => h
  }

  /** BFINAL and BTYPE. */
  method BlockHeader(r: IoRBits, ghost bits: seq<bool>) returns (final: bool, kind: nat)
    requires r.Valid() && r.bitcount < 8 && r.Rest() == bits && |bits| >= 3
    modifies r
    ensures r.Valid() && r.bitcount < 8 && r.data == old(r.data) && r.Rest() == bits[3..]
    ensures final == bits[0]
    ensures kind == (if bits[1] then 1 else 0) + (if bits[2] then 2 else 0)
  {
    r.Ensure(3);
    var f := r.Pop(1);
    kind := r.Pop(2);
    OneBit(bits);
    TwoBits(bits[1..]);
    final := f == 1;
  }

  lemma TwoBits(b: seq<bool>)
    requires |b| >= 2
    ensures FromLsb(b[..2]) == (if b[0] then 1 else 0) + (if b[1] then 2 else 0)
  {
    OneBit(b[1..]);
    assert b[..2][1..] == b[1..][..1];
  }

  /** An uncompressed block. */
  method StoredBlock(x: Inflater, ghost d: seq<Byte>, ghost tail: seq<bool>) returns (size: nat)
    requires x.Valid() && |d| <= 65535
    requires var rest := x.r.Rest(); rest[|rest| % 8..] == Lsb(|d|, 16) + Lsb(65535 - |d|, 16) + ByteBits(d) + tail
    modifies x.r, x.w, x.w.data
    ensures x.Valid() && x.r.data == old(x.r.data) && x.r.Rest() == tail
    ensures x.w.Total() == old(x.w.Total()) + d && size == |d|
  {
    hide ByteBits, IoWindow.Total, Lsb, Le, FromLe;
    var r := x.r;
    r.Align();
    WordsAndData(|d|, 65535 - |d|, d);
    ghost var y := Le(|d|, 2) + Le(65535 - |d|, 2) + d;
    ghost var input := r.data[r.pos..];
    BytesOfBits(input, y, tail);
    StoredParts(input, d);
    var len := r.Read(2);
    var nlen := r.Read(2);
    LengthWord(|d|);
    LengthWord(65535 - |d|);
    assert FromLe(len) == MAX_STORED - FromLe(nlen);
    size := CopyN(r, x.w, FromLe(len), d);
    EmptyBuffer(r.bitbuf);
  }

  /** The two length words and the data, as bits. */
  lemma WordsAndData(n: nat, m: nat, d: seq<Byte>)
    ensures ByteBits(Le(n, 2) + Le(m, 2) + d) == Lsb(n, 16) + Lsb(m, 16) + ByteBits(d)
  {
    hide Lsb, Le, ByteBits;
    ThreeParts(Le(n, 2), Le(m, 2), d);
    WordBits16(n);
    WordBits16(m);
  }

  lemma ThreeParts(a: seq<Byte>, b: seq<Byte>, d: seq<Byte>)
    ensures ByteBits(a + b + d) == ByteBits(a) + ByteBits(b) + ByteBits(d)
  {
    hide ByteBits;
    ByteBitsAppend(a + b, d);
    ByteBitsAppend(a, b);
  }

  lemma WordBits16(n: nat)
    ensures ByteBits(Le(n, 2)) == Lsb(n, 16)
  {
    LeBits(n, 2);
  }

  lemma LengthWord(n: nat)
    requires n <= 65535
    ensures FromLe(Le(n, 2)) == n
  {
    LeRoundTrip(n, 2);
  }

  lemma StoredParts(input: seq<Byte>, d: seq<Byte>)
    requires |d| <= 65535 && Le(|d|, 2) + Le(65535 - |d|, 2) + d <= input
    ensures |input| >= 4 + |d|
    ensures input[..2] == Le(|d|, 2) && input[2..][..2] == Le(65535 - |d|, 2) && d <= input[2..][2..]
    ensures input[2..][2..][|d|..] == input[|Le(|d|, 2) + Le(65535 - |d|, 2) + d|..]
  {
    hide Le;
    var y := Le(|d|, 2) + Le(65535 - |d|, 2) + d;
    assert y[..2] == Le(|d|, 2) && y[2..4] == Le(65535 - |d|, 2) && y[4..] == d;
    assert input[..|y|] == y;
    assert input[..2] == y[..2] && input[2..][..2] == y[2..4];
    assert input[2..][2..][..|d|] == y[4..];
  }

  lemma EmptyBuffer(v: nat)
    ensures Lsb(v, 0) == []
  {
  }

  lemma FixedFacts(toks: seq<Token>)
    requires TokensOk(FixedLits(), FixedDists(), toks)
    ensures Coded(FixedLits(), 256)
    ensures forall i | 0 <= i < |toks| && toks[i].Copy? :: 257 + toks[i].lsym <= 285
  {
    forall i | 0 <= i < |toks| && toks[i].Copy? ensures 257 + toks[i].lsym <= 285 {
      assert TokenOk(FixedLits(), FixedDists(), toks[i]);
    }
  }

  /** A block compressed with the fixed codes. */
  method FixedBlock(x: Inflater, ghost toks: seq<Token>, ghost tail: seq<bool>) returns (ok: bool, size: nat)
    requires x.Valid() && TokensOk(FixedLits(), FixedDists(), toks) && DeflateFormat.InReach(x.w.Total(), toks)
    requires RefusalsReal(285, 29, toks)
    requires x.r.Rest() == BodyBits(FixedLits(), FixedDists(), toks) + tail
    modifies x.r, x.w, x.w.data, x.lengthTree, x.distTree
    modifies x.lengthTree.counts, x.lengthTree.symbols, x.distTree.counts, x.distTree.symbols
    ensures x.Valid() && x.r.data == old(x.r.data)
    ensures ok <==> NoneRefused(toks)
    ensures ok ==> x.r.Rest() == tail && x.w.Total() == Expand(old(x.w.Total()), toks)
    ensures ok ==> size == |x.w.Total()| - |old(x.w.Total())|
  {
    hide IoWindow.Total, IoRBits.Rest, BodyBits, Expand, DeflateFormat.InReach, FixedLits, FixedDists, TokenOk,
      Complete, TablesFor;
    FixedFacts(toks);
    ghost var h, bits := x.w.Total(), x.r.Rest();
    BuildStatic(x.lengthTree, x.distTree);
    assert x.w.Total() == h && x.r.Rest() == bits;
    ok, size := x.Body(FixedLits(), FixedDists(), toks, tail);
  }

  lemma CopiesNeedCodes(ls: Lengths, ds: Lengths, toks: seq<Token>)
    requires TokensOk(ls, Effective(ds), toks)
    ensures forall i | 0 <= i < |toks| && toks[i].Copy? :: Codes(ds) > 0 && toks[i].lsym <= 28
  {
    forall i | 0 <= i < |toks| && toks[i].Copy? ensures Codes(ds) > 0 && toks[i].lsym <= 28 {
      assert TokenOk(ls, Effective(ds), toks[i]);
      if Codes(ds) != 1 { CodedMeansSome(ds, toks[i].dsym); }
    }
  }

  /** A block that brings its own codes. */
  method DynamicBlock(x: Inflater, ghost d: Header, ghost toks: seq<Token>, ghost rest: seq<bool>,
                      ghost tail: seq<bool>)
    returns (ok: bool, size: nat)
    requires x.Valid() && HeaderShape(d) && (HeaderOk(d) ==> BodyShape(d, toks, x.w.Total()))
    requires HeaderOk(d) ==> rest == BodyBits(Effective(LitLengths(d)), Effective(DistLengths(d)), toks) + tail
    requires x.r.Rest() == HeaderBits(d) + rest
    modifies x.r, x.w, x.w.data, x.lengthTree, x.distTree
    modifies x.lengthTree.counts, x.lengthTree.symbols, x.distTree.counts, x.distTree.symbols
    ensures x.Valid() && x.r.data == old(x.r.data)
    ensures ok <==> HeaderOk(d) && CopiesDeclared(d, toks)
    ensures ok ==> x.r.Rest() == tail && x.w.Total() == Expand(old(x.w.Total()), toks)
    ensures ok ==> size == |x.w.Total()| - |old(x.w.Total())|
  {
    hide IoWindow.Total, IoRBits.Rest, BodyBits, Expand, DeflateFormat.InReach, TokenOk, Complete, TablesFor,
      HeaderBits, HeaderOk,
         Effective, MaxSym, Codes;
    ghost var h, ls, ds := x.w.Total(), Effective(LitLengths(d)), Effective(DistLengths(d));
    EffectiveSmall(LitLengths(d));
    EffectiveSmall(DistLengths(d));
    ok := BuildDynamic(x.r, x.lengthTree, x.distTree, d, rest);
    if !ok { return false, 0; }
    CopiesNeedCodes(ls, DistLengths(d), toks);
    assert x.w.Total() == h;
    ok, size := x.Body(ls, ds, toks, tail);
  }

  /** deflate_decompress_block. */
  method DecodeBlock(x: Inflater, ghost final: bool, ghost b: Block, ghost tail: seq<bool>)
    returns (ok: bool, last: bool, size: nat)
    requires x.Valid() && Encodes(x.r.Rest(), final, b, x.w.Total(), tail)
    modifies x.r, x.w, x.w.data, x.lengthTree, x.distTree
    modifies x.lengthTree.counts, x.lengthTree.symbols, x.distTree.counts, x.distTree.symbols
    ensures x.Valid() && x.r.data == old(x.r.data)
    ensures ok <==> BlockOk(b)
    ensures last == final
    ensures ok ==> x.r.Rest() == tail && x.w.Total() == Meaning(old(x.w.Total()), b)
    ensures ok ==> size == |x.w.Total()| - |old(x.w.Total())|
  {
    hide IoWindow.Total, IoRBits.Rest, BodyBits, Expand, DeflateFormat.InReach, TokensOk, HeaderBits, HeaderOk,
      HeaderShape,
         Effective, FixedLits, FixedDists, CopiesDeclared, ByteBits, LitLengths, DistLengths;
    var kind;
    ghost var bits := x.r.Rest();
    KindOf(bits[1..3], bits);
    last, kind := BlockHeader(x.r, bits);
    size := 0;
    if kind == 0 {
      ok := true;
      size := StoredBlock(x, b.data, tail);
    } else if kind == 1 {
      ok, size := FixedBlock(x, b.toks, tail);
    } else if kind == 2 {
      ok, size := DynamicBlock(x, b.header, b.toks, x.r.Rest()[|HeaderBits(b.header)|..], tail);
    } else {
      ok := false;
    }
  }

  lemma KindOf(k: seq<bool>, bits: seq<bool>)
    requires |bits| >= 3 && k == bits[1..3]
    ensures k[0] == bits[1] && k[1] == bits[2] && k == [bits[1], bits[2]]
  {
  }

  // ----- Streams -------------------------------------------------------------------------------

  /** `bits` are the blocks, the last one marked final, followed by `tail`; or the blocks up to the first one that is
      refused, followed by anything. */
  ghost predicate Stream(bits: seq<bool>, h: seq<Byte>, blocks: seq<Block>, tail: seq<bool>)
    decreases |blocks|
  {
    && blocks != []
    && exists t: seq<bool>, final: bool ::
      Encodes(bits, final, blocks[0], h, t) && StreamRest(final, t, h, blocks, tail)
  }

  ghost predicate StreamRest(final: bool, t: seq<bool>, h: seq<Byte>, blocks: seq<Block>, tail: seq<bool>)
    requires blocks != []
    decreases |blocks|, 0
  {
    if !BlockOk(blocks[0]) then |blocks| == 1
    else if final then |blocks| == 1 && t == tail
    else |blocks| > 1 && BlockShape(blocks[0], h) && Stream(t, Meaning(h, blocks[0]), blocks[1..], tail)
  }

  /** The output the blocks stand for. */
  ghost function Output(h: seq<Byte>, blocks: seq<Block>): seq<Byte>
    decreases |blocks|
  {
    if blocks == [] then h
    else if BlockShape(blocks[0], h) then Output(Meaning(h, blocks[0]), blocks[1..])
    else h
  }

  /** The loop of deflate_decompress_stream. */
  method Blocks(x: Inflater, ghost blocks: seq<Block>, ghost tail: seq<bool>) returns (ok: bool, total: nat)
    requires x.Valid() && Stream(x.r.Rest(), x.w.Total(), blocks, tail)
    modifies x.r, x.w, x.w.data, x.lengthTree, x.distTree
    modifies x.lengthTree.counts, x.lengthTree.symbols, x.distTree.counts, x.distTree.symbols
    ensures x.Valid() && x.r.data == old(x.r.data)
    ensures ok <==> AllOk(blocks)
    ensures ok ==> x.r.Rest() == tail && x.w.Total() == Output(old(x.w.Total()), blocks)
    ensures ok ==> total == |x.w.Total()| - |old(x.w.Total())|
  {
    hide IoWindow.Total, IoRBits.Rest, Encodes, BlockOk, Meaning, BlockShape, Stream, Output, StreamRest;
    total := 0;
    ghost var k, h0 := 0, x.w.Total();
    assert blocks[0..] == blocks;
    StreamNotEmpty(x.r.Rest(), h0, blocks, tail);
    while true
      invariant 0 <= k < |blocks| && x.Valid() && x.r.data == old(x.r.data)
      invariant Stream(x.r.Rest(), x.w.Total(), blocks[k..], tail)
      invariant Output(x.w.Total(), blocks[k..]) == Output(h0, blocks)
      invariant forall i | 0 <= i < k :: BlockOk(blocks[i])
      invariant total == |x.w.Total()| - |h0|
      decreases |blocks| - k
    {
      ghost var h := x.w.Total();
      ghost var t, final := StreamStep(x.r.Rest(), h, blocks[k..], tail);
      assert blocks[k..][0] == blocks[k] && blocks[k..][1..] == blocks[k + 1..];
      var last, size;
      ok, last, size := DecodeBlock(x, final, blocks[k], t);
      if !ok { return false, 0; }
      total := total + size;
      k := k + 1;
      if last { return true, total; }
    }
  }

  lemma StreamNotEmpty(bits: seq<bool>, h: seq<Byte>, blocks: seq<Block>, tail: seq<bool>)
    requires Stream(bits, h, blocks, tail)
    ensures |blocks| > 0
  {
  }

  lemma StreamStep(bits: seq<bool>, h: seq<Byte>, blocks: seq<Block>, tail: seq<bool>)
    returns (t: seq<bool>, final: bool)
    requires Stream(bits, h, blocks, tail)
    ensures |blocks| > 0 && Encodes(bits, final, blocks[0], h, t) && BlockShape(blocks[0], h)
    ensures final && BlockOk(blocks[0]) ==> |blocks| == 1 && t == tail && Output(h, blocks) == Meaning(h, blocks[0])
    ensures !final && BlockOk(blocks[0]) ==> |blocks| > 1 && Stream(t, Meaning(h, blocks[0]), blocks[1..], tail)
    ensures Output(h, blocks) == Output(Meaning(h, blocks[0]), blocks[1..])
  {
    hide BlockShape, Meaning, BlockOk;
    t, final :| Encodes(bits, final, blocks[0], h, t) && StreamRest(final, t, h, blocks, tail);
  }

  /** The bytes left are the whole bytes of the tail: only padding bits were dropped. */
  ghost predicate Unused(left: seq<Byte>, tail: seq<bool>) {
    ByteBits(left) == tail[|tail| % 8..]
  }

  ghost predicate AllOk(blocks: seq<Block>) {
    forall i | 0 <= i < |blocks| :: BlockOk(blocks[i])
  }

  /** deflate_decompress_stream on a byte string whose bits are the given blocks: the output is what they stand for, the
      reported size is its length, and the byte reader stands at the first byte the stream does not use. */
  method Decompress(data: seq<Byte>, ghost blocks: seq<Block>, ghost tail: seq<bool>)
    returns (ok: bool, out: seq<Byte>, total: nat, left: seq<Byte>)
    requires Stream(ByteBits(data), [], blocks, tail)
    ensures ok <==> AllOk(blocks)
    ensures ok ==> out == Output([], blocks) && total == |out|
    ensures ok ==> Unused(left, tail)
  {
    hide IoWindow.Total, Stream, Output, BlockOk, ByteBits;
    var x := new Inflater(data);
    ok, total := Blocks(x, blocks, tail);
    if !ok { return false, [], 0, []; }
    x.w.FlushAll();
    out := x.w.out;
    left := x.r.data[x.r.pos..];
    LeftOver(x.r.bitbuf, x.r.bitcount, left, tail);
  }

  lemma LeftOver(buf: nat, n: nat, left: seq<Byte>, tail: seq<bool>)
    requires n < 8 && Lsb(buf, n) + ByteBits(left) == tail
    ensures Unused(left, tail)
  {
    assert |tail| % 8 == n;
  }
}
