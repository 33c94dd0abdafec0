/** Blocks and streams (codec-deflate/inflate.c): from the block header to the whole decompressed output. */
module InflateStream {
  import opened Bits
  import opened Huffman
  import opened BitReader
  import opened HuffTrees
  import opened Window
  import opened DeflateFormat
  import opened Inflate
  import opened FixedCodes
  import opened DynamicHeader

  /** build_dynamic_huff_trees: accepts exactly the usable headers and then holds their codes. */
  method BuildDynamic(r: IoRBits, lt: HuffTree, dt: HuffTree, ghost d: Header, ghost more: seq<bool>) returns (ok: bool)
    requires lt.Valid() && dt.Valid() && lt != dt
    requires lt.counts != dt.counts && lt.counts != dt.symbols && lt.symbols != dt.counts && lt.symbols != dt.symbols
    requires r.Valid() && r.bitcount < 8 && HeaderShape(d) && r.Rest() == HeaderBits(d) + more
    modifies r, lt, dt, lt.counts, lt.symbols, dt.counts, dt.symbols
    ensures r.Valid() && r.bitcount < 8 && r.data == old(r.data)
    ensures ok <==> HeaderOk(d)
    ensures ok ==> r.Rest() == more
    ensures ok ==> lt.Decodes(Effective(LitLengths(d))) && lt.maxSym == MaxSym(LitLengths(d))
    ensures ok ==>
      dt.maxSym == MaxSym(DistLengths(d)) && (Codes(DistLengths(d)) > 0 ==> dt.Decodes(Effective(DistLengths(d))))
  {
    hide Lsb, IoRBits.Rest, Effective, Complete, TablesFor, ApplyAll, OpsBits, PreBits, Codes, Kraft, MaxSym, Count,
      BothOk,
         Accepted, LitLengths, DistLengths, HeaderBits;
    ghost var o := OpsBits(Effective(d.pre), d.ops);
    HeaderFacts(d);
    var hlit, hdist, hclen := ReadSizes(r, d, more);
    if hlit > MAX_LITLEN || hdist > MAX_OFFSET { return false; }
    var lengths := new nat[288 + 32](i => 0);
    ReadPrecode(r, lengths, hclen, d.pre, o + more);
    var b := lt.Build(lengths[..PRECODE_SYMBOLS]);
    if b != Built { return false; }
    EffectiveSmall(d.pre);
    var filled := ReadLengths(r, lt, lengths, hlit + hdist, d, more);
    if !filled { return false; }
    ok := BuildBoth(lt, dt, lengths[..hlit + hdist], hlit, d);
  }

  /** HLIT, HDIST and HCLEN. */
  method ReadSizes(r: IoRBits, ghost d: Header, ghost more: seq<bool>) returns (hlit: nat, hdist: nat, hclen: nat)
    requires r.Valid() && r.bitcount < 8 && HeaderShape(d) && r.Rest() == HeaderBits(d) + more
    modifies r
    ensures r.Valid() && r.bitcount < 8 && r.data == old(r.data)
    ensures hlit == d.hlit && hdist == d.hdist && hclen == d.hclen
    ensures r.Rest() == PreBits(d.pre, 0, d.hclen) + (OpsBits(Effective(d.pre), d.ops) + more)
  {
    hide Lsb, IoRBits.Rest, Effective, ApplyAll, OpsBits, PreBits, Codes;
    ghost var rest := SplitHeader(d, more);
    r.Ensure(14);
    hlit := PopValue(r, 5, d.hlit - 257, Lsb(d.hdist - 1, 5) + (Lsb(d.hclen - 4, 4) + rest));
    hdist := PopValue(r, 5, d.hdist - 1, Lsb(d.hclen - 4, 4) + rest);
    hclen := PopValue(r, 4, d.hclen - 4, rest);
    hlit, hdist, hclen := hlit + 257, hdist + 1, hclen + 4;
  }

  /** The two trees from the decoded lengths. */
  method BuildBoth(lt: HuffTree, dt: HuffTree, all: seq<nat>, hlit: nat, ghost d: Header) returns (ok: bool)
    requires lt.Valid() && dt.Valid() && lt != dt
    requires lt.counts != dt.counts && lt.counts != dt.symbols && lt.symbols != dt.counts && lt.symbols != dt.symbols
    requires HeaderShape(d) && ShortLengths(AllLengths(d)) && all == AllLengths(d) && |all| == d.hlit + d.hdist
      && hlit == d.hlit
    modifies lt, dt, lt.counts, lt.symbols, dt.counts, dt.symbols
    ensures ok <==> BothOk(d)
    ensures ok ==> lt.Decodes(Effective(LitLengths(d))) && lt.maxSym == MaxSym(LitLengths(d))
    ensures ok ==>
      dt.maxSym == MaxSym(DistLengths(d)) && (Codes(DistLengths(d)) > 0 ==> dt.Decodes(Effective(DistLengths(d))))
  {
    hide Effective, Complete, TablesFor, ApplyAll, Codes, Kraft, MaxSym, Count, Accepted;
    if all[END_OF_BLOCK] == 0 { return false; }
    SomeLitCode(d);
    HeaderFacts(d);
    assert all[hlit..] == DistLengths(d);
    var b := lt.Build(all[..hlit]);
    if b != Built { return false; }
    b := dt.Build(all[hlit..]);
    return b == Built;
  }

  lemma SplitHeader(d: Header, more: seq<bool>) returns (rest: seq<bool>)
    requires HeaderShape(d)
    ensures rest == PreBits(d.pre, 0, d.hclen) + (OpsBits(Effective(d.pre), d.ops) + more)
    ensures HeaderBits(d) + more == Lsb(d.hlit - 257, 5) + (Lsb(d.hdist - 1, 5) + (Lsb(d.hclen - 4, 4) + rest))
    ensures d.hlit - 257 < Pow2(5) && d.hdist - 1 < Pow2(5) && d.hclen - 4 < Pow2(4)
  {
    hide Lsb, PreBits, OpsBits, Effective, ApplyAll, Codes;
    Pow2Values();
    var a, b, c := Lsb(d.hlit - 257, 5), Lsb(d.hdist - 1, 5), Lsb(d.hclen - 4, 4);
    var p, o := PreBits(d.pre, 0, d.hclen), OpsBits(Effective(d.pre), d.ops);
    rest := p + (o + more);
    Assoc(p, o, more);
    Assoc(c, p + o, more);
    Assoc(b, c + (p + o), more);
    Assoc(a, b + (c + (p + o)), more);
  }

  lemma HeaderFacts(d: Header)
    requires HeaderShape(d)
    ensures ShortLengths(d.pre) && ShortLengths(AllLengths(d)) && ShortLengths(LitLengths(d))
      && ShortLengths(DistLengths(d))
  {
    LengthsShort(d.pre, [], d.ops);
  }

  lemma EffectiveSmall(ls: Lengths)
    ensures |Effective(ls)| <= |ls| + 1
  {
  }

  /** A code with an end-of-block symbol is not empty. */
  lemma {:induction false} CodedMeansSome(ls: Lengths, s: nat)
    requires s < |ls| && ls[s] != 0
    ensures Codes(ls) > 0
    decreases |ls|
  {
    if s < |ls| - 1 { CodedMeansSome(ls[..|ls| - 1], s); }
  }

  lemma SomeLitCode(d: Header)
    requires HeaderShape(d) && AllLengths(d)[256] != 0
    ensures Codes(LitLengths(d)) > 0
  {
    CodedMeansSome(LitLengths(d), END_OF_BLOCK);
  }

  // ----- Stored blocks -------------------------------------------------------------------------

  /** io_copy_n from the byte reader into the window, in pieces of 512 bytes. */
  method CopyN(r: IoRBits, w: IoWindow, n: nat, ghost bytes: seq<Byte>) returns (total: nat)
    requires r.Valid() && w.Valid() && w.Recent() && w.capacity >= 512
    requires bytes <= r.data[r.pos..] && |bytes| == n
    modifies r`pos, w, w.data
    ensures r.Valid() && r.data[r.pos..] == old(r.data[r.pos..])[n..]
    ensures w.Valid() && w.Recent() && w.Total() == old(w.Total()) + bytes
    ensures total == n
  {
    hide IoWindow.Total;
    total := 0;
    ghost var h, input := w.Total(), r.data[r.pos..];
    Pieces(h, bytes, input, 0, 0);
    while true
      invariant 0 <= total <= n && (total < n || n == 0)
      invariant r.Valid() && r.data == old(r.data) && r.data[r.pos..] == input[total..]
      invariant w.Valid() && w.Recent() && w.Total() == h + bytes[..total]
      decreases n - total
    {
      var toRead := if n - total < 512 then n - total else 512;
      Pieces(h, bytes, input, total, toRead);
      var read := CopyPiece(r, w, toRead, bytes[total..total + toRead]);
      if read == 0 { return; }
      total := total + read;
      if total >= n { return; }
    }
  }

  lemma Pieces(h: seq<Byte>, bytes: seq<Byte>, input: seq<Byte>, t: nat, k: nat)
    requires bytes <= input && t + k <= |bytes|
    ensures bytes[t..t + k] <= input[t..] && input[t..][k..] == input[t + k..]
    ensures h + bytes[..t] + bytes[t..t + k] == h + bytes[..t + k]
    ensures t == |bytes| ==> bytes[..t] == bytes
    ensures t + k == |bytes| ==> bytes[..t + k] == bytes
    ensures t == 0 ==> h + bytes[..t] == h && input[t..] == input
  {
  }

  /** One read and one write of io_copy_n. */
  method CopyPiece(r: IoRBits, w: IoWindow, k: nat, ghost piece: seq<Byte>) returns (done: nat)
    requires r.Valid() && w.Valid() && w.Recent() && k <= w.capacity
    requires piece <= r.data[r.pos..] && |piece| == k
    modifies r`pos, w, w.data
    ensures r.Valid() && r.data[r.pos..] == old(r.data[r.pos..])[k..]
    ensures w.Valid() && w.Recent() && w.Total() == old(w.Total()) + piece
    ensures done == k
  {
    var buf := r.Read(k);
    assert buf == piece;
    done := w.Write(buf);
    assert buf[..done] == buf;
  }
}
