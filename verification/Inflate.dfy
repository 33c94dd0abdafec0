/** The decompressor (codec-deflate/inflate.c): on a well-formed bit string it produces the bytes the format assigns to
    it. */
module Inflate {
  import opened Basics
  import opened Bits
  import opened Huffman
  import opened BitReader
  import opened HuffTrees
  import opened Window
  import opened DeflateFormat

  /** Reads `n` bits known to hold v. */
  method Value(r: IoRBits, n: nat, ghost v: nat, ghost rest: seq<bool>) returns (x: nat)
    requires r.Valid() && r.bitcount < 8 && n <= MAX_ENSURE && v < Pow2(n) && r.Rest() == Lsb(v, n) + rest
    modifies r
    ensures r.Valid() && r.bitcount < 8 && r.data == old(r.data)
    ensures x == v && r.Rest() == rest
  {
    MaskSmall(v, n);
    assert r.Rest()[..n] == Lsb(v, n) && r.Rest()[n..] == rest;
    x := r.Take(n);
  }

  /** Pops `n` bits that are in the buffer and known to hold v. */
  method PopValue(r: IoRBits, n: nat, ghost v: nat, ghost rest: seq<bool>) returns (x: nat)
    requires r.Valid() && n <= r.bitcount && v < Pow2(n) && r.Rest() == Lsb(v, n) + rest
    modifies r`bitbuf, r`bitcount
    ensures r.Valid() && r.bitcount == old(r.bitcount) - n
    ensures x == v && r.Rest() == rest
  {
    MaskSmall(v, n);
    assert r.Rest()[..n] == Lsb(v, n) && r.Rest()[n..] == rest;
    x := r.Pop(n);
  }

  /** Decodes a symbol known to be s. */
  method Symbol(r: IoRBits, tree: HuffTree, ghost ls: Lengths, ghost s: nat, ghost rest: seq<bool>) returns (x: nat)
    requires tree.Decodes(ls) && |ls| <= MAX_SYMBOLS + 1 && Coded(ls, s)
    requires r.Valid() && r.bitcount < 8 && r.Rest() == CodeBits(ls, s) + rest
    modifies r
    ensures r.Valid() && r.bitcount < 8 && r.data == old(r.data)
    ensures x == s && r.Rest() == rest
  {
    ghost var bits := r.Rest();
    assert CodeBits(ls, s) <= bits;
    x := tree.Next(r, ls);
    SameSymbol(ls, x, s, bits);
    assert bits[ls[s]..] == rest;
  }

  class Inflater {
    const r: IoRBits
    const w: IoWindow
    const lengthTree: HuffTree
    const distTree: HuffTree

    ghost predicate Apart()
    {
      && lengthTree != distTree
      && lengthTree.counts != lengthTree.symbols && distTree.counts != distTree.symbols
      && lengthTree.counts != distTree.counts && lengthTree.counts != distTree.symbols
      && lengthTree.symbols != distTree.counts && lengthTree.symbols != distTree.symbols
      && w.data as object != lengthTree.counts && w.data as object != lengthTree.symbols
      && w.data as object != distTree.counts && w.data as object != distTree.symbols
    }

    ghost predicate Valid()
      reads this, r, w, lengthTree, distTree
    {
      && r.Valid() && r.bitcount < 8
      && w.Valid() && w.Recent() && w.capacity == WINDOW_SIZE
      && lengthTree.Valid() && distTree.Valid() && Apart()
    }

    constructor (data: seq<Byte>)
      ensures Valid() && fresh(r) && fresh(w) && fresh(w.data) && fresh(lengthTree) && fresh(distTree)
      ensures fresh(lengthTree.counts) && fresh(lengthTree.symbols) && fresh(distTree.counts) && fresh(distTree.symbols)
      ensures w.Total() == [] && r.Rest() == ByteBits(data) && r.data == data
    {
      r := new IoRBits(data);
      w := new IoWindow(WINDOW_SIZE);
      lengthTree := new HuffTree();
      distTree := new HuffTree();
    }

    /** The check in front of a match: the length symbol is one that exists and the block declared, and there are
        distance codes. */
    predicate Refuses(symbol: nat)
      reads this, lengthTree, distTree
    {
      symbol > lengthTree.maxSym || symbol - 257 > 28 || distTree.maxSym == -1
    }

    ghost predicate InLimits(t: Token)
      reads this, lengthTree, distTree
    {
      !t.Refused? && (t.Copy? ==> !Refuses(257 + t.lsym))
    }

    /** Trees and tokens fit together. */
    ghost predicate Ready(ls: Lengths, ds: Lengths, toks: seq<Token>)
      reads this, lengthTree, lengthTree.counts, lengthTree.symbols, distTree, distTree.counts, distTree.symbols
    {
      && lengthTree.Decodes(ls) && |ls| <= MAX_SYMBOLS + 1 && Coded(ls, 256)
      && |ds| <= MAX_SYMBOLS + 1
      && TokensOk(ls, ds, toks)
      && (forall i | 0 <= i < |toks| && InLimits(toks[i]) && toks[i].Copy? :: distTree.Decodes(ds))
      && (forall i | 0 <= i < |toks| && toks[i].Refused? :: Refuses(toks[i].symbol))
    }

    /** The match branch of deflate_decompress_block, after the length symbol has been read: refused at once, or all of
        the match is read and copied. */
    method Match(symbol: nat, ghost ls: Lengths, ghost ds: Lengths, ghost t: Token, ghost rest: seq<bool>)
      returns (ok: bool, length: nat)
      requires Valid() && TokenOk(ls, ds, t) && |ds| <= MAX_SYMBOLS + 1
      requires (t.Copy? && symbol == 257 + t.lsym) || (t.Refused? && symbol == t.symbol && Refuses(symbol))
      requires t.Copy? ==> 1 <= DistanceOf(t) <= |w.Total()|
      requires t.Copy? && InLimits(t) ==> distTree.Decodes(ds)
      requires t.Copy? ==>
        r.Rest() == Lsb(t.lextra, LensBits(t.lsym)) + (CodeBits(ds, t.dsym) + Lsb(t.dextra, DistBits(t.dsym))) + rest
      modifies r, w, w.data
      ensures Valid() && r.data == old(r.data)
      ensures ok <==> InLimits(t)
      ensures ok ==> length == LengthOf(t) && r.Rest() == rest
      ensures ok ==> w.Total() == CopyBytes(old(w.Total()), LengthOf(t), DistanceOf(t))
    {
      hide Lsb, ByteBits, CodeBits, Complete, TablesFor, CopyBytes, Pow2, LensBase, LensBits, DistBase, DistBits,
           IoWindow.Total, IoRBits.Rest;
      if Refuses(symbol) {
        return false, 0;
      }
      var l := symbol - 257;
      ghost var lb, cb, db := Lsb(t.lextra, LensBits(t.lsym)), CodeBits(ds, t.dsym), Lsb(t.dextra, DistBits(t.dsym));
      assert lb + (cb + db) + rest == lb + (cb + (db + rest));
      var lextra := Value(r, LensBits(l), t.lextra, cb + (db + rest));
      var d := Symbol(r, distTree, ds, t.dsym, db + rest);
      var dextra := Value(r, DistBits(d), t.dextra, rest);
      length := LensBase(l) + lextra;
      DistanceBounded(t);
      CopyMatch(w, length, DistBase(d) + dextra);
      ok := true;
    }

    /** The symbol loop of deflate_decompress_block: it writes what the tokens mean and stops behind the end-of-block
        code. */
    method Body(ghost ls: Lengths, ghost ds: Lengths, ghost toks: seq<Token>, ghost tail: seq<bool>)
      returns (ok: bool, size: nat)
      requires Valid() && Ready(ls, ds, toks) && DeflateFormat.InReach(w.Total(), toks)
      requires r.Rest() == BodyBits(ls, ds, toks) + tail
      modifies r, w, w.data
      ensures Valid() && r.data == old(r.data)
      ensures ok <==> forall i | 0 <= i < |toks| :: InLimits(toks[i])
      ensures ok ==> r.Rest() == tail && w.Total() == Expand(old(w.Total()), toks)
      ensures ok ==> size == |w.Total()| - |old(w.Total())|
    {
      hide Lsb, ByteBits, CodeBits, Complete, TablesFor, CopyBytes, BodyBits, Expand, DeflateFormat.InReach, TokenBits,
           IoWindow.Total, IoRBits.Rest, TokenOk, LengthOf, DistanceOf;
      size := 0;
      ghost var k := 0;
      ghost var h0 := w.Total();
      assert toks[0..] == toks;
      while true
        invariant 0 <= k <= |toks|
        invariant Valid() && Ready(ls, ds, toks) && r.data == old(r.data)
        invariant DeflateFormat.InReach(w.Total(), toks[k..]) && Expand(w.Total(), toks[k..]) == Expand(h0, toks)
        invariant r.Rest() == BodyBits(ls, ds, toks[k..]) + tail
        invariant forall i | 0 <= i < k :: InLimits(toks[i])
        invariant size == |w.Total()| - |h0|
        decreases |toks| - k
      {
        ghost var t := if k < |toks| then Some(toks[k]) else None;
        ghost var rest := NextToken(ls, ds, toks[k..], tail);
        assert k < |toks| ==> toks[k..][0] == toks[k] && toks[k..][1..] == toks[k + 1..];
        Unroll(w.Total(), toks[k..]);
        var symbol := Symbol(r, lengthTree, ls, SymbolOfToken(t), rest);
        SymbolRange(ls, ds, toks, k);
        if symbol < 256 {
          Put(w, symbol);
          size := size + 1;
        } else if symbol == 256 {
          return true, size;
        } else {
          var fits, length := Match(symbol, ls, ds, toks[k], BodyBits(ls, ds, toks[k + 1..]) + tail);
          if !fits { return false, 0; }
          size := size + length;
        }
        k := k + 1;
      }
    }
  }

  /** The length/literal symbol that opens a token; end of block when there is none. */
  function SymbolOfToken(t: Option<Token>): nat {
    match t
    case None => END_OF_BLOCK
    case Some(Literal(b)) => b
    case Some(Copy(l, _, _, _)) => 257 + l
    case Some(Refused(s)) => s
  }

  lemma TailOk(ls: Lengths, ds: Lengths, toks: seq<Token>)
    requires TokensOk(ls, ds, toks) && toks != []
    ensures TokenOk(ls, ds, toks[0]) && TokensOk(ls, ds, toks[1..])
    ensures toks[0].Literal? ==> Coded(ls, toks[0].value)
    ensures toks[0].Copy? ==> toks[0].lsym < LEN_SYMBOLS && toks[0].dsym < DIST_SYMBOLS
    ensures toks[0].Copy? ==> Coded(ls, 257 + toks[0].lsym) && Coded(ds, toks[0].dsym)
    ensures toks[0].Refused? ==> Coded(ls, toks[0].symbol)
  {
    assert TokenOk(ls, ds, toks[0]);
  }

  /** Splits the remaining bits behind the next length/literal symbol. */
  lemma NextToken(ls: Lengths, ds: Lengths, toks: seq<Token>, tail: seq<bool>) returns (rest: seq<bool>)
    requires TokensOk(ls, ds, toks) && Coded(ls, 256)
    ensures var s := SymbolOfToken(if toks == [] then None else Some(toks[0]));
            && Coded(ls, s) && BodyBits(ls, ds, toks) + tail == CodeBits(ls, s) + rest
    ensures toks == [] ==> rest == tail
    ensures toks != [] && toks[0].Literal? ==> rest == BodyBits(ls, ds, toks[1..]) + tail
    ensures toks != [] && toks[0].Copy? ==>
      && TokenOk(ls, ds, toks[0])
      && rest == Lsb(toks[0].lextra, LensBits(toks[0].lsym))
        + (CodeBits(ds, toks[0].dsym) + Lsb(toks[0].dextra, DistBits(toks[0].dsym)))
                 + (BodyBits(ls, ds, toks[1..]) + tail)
  {
    hide CodeBits, Lsb, TokenOk, TokensOk, LensBits, DistBits;
    if toks == [] {
      rest := tail;
    } else {
      TailOk(ls, ds, toks);
      var body := BodyBits(ls, ds, toks[1..]);
      match toks[0]
      case Literal(b) =>
        rest := body + tail;
        Assoc(CodeBits(ls, b), body, tail);
      case Copy(l, le, d, de) =>
        var extra := Lsb(le, LensBits(l)) + (CodeBits(ds, d) + Lsb(de, DistBits(d)));
        rest := extra + (body + tail);
        Assoc(CodeBits(ls, 257 + l) + extra, body, tail);
        Assoc(CodeBits(ls, 257 + l), extra, body + tail);
      case Refused(s) =>
        rest := tail;
    }
  }

  lemma Assoc(a: seq<bool>, b: seq<bool>, c: seq<bool>)
    ensures a + b + c == a + (b + c)
  {
  }

  lemma Unroll(h: seq<Byte>, toks: seq<Token>)
    requires DeflateFormat.InReach(h, toks)
    ensures toks == [] ==> Expand(h, toks) == h
    ensures toks != [] && toks[0].Literal? ==>
      DeflateFormat.InReach(h + [toks[0].value], toks[1..]) && Expand(h, toks) == Expand(h + [toks[0].value], toks[1..])
    ensures toks != [] && toks[0].Copy? ==>
      && toks[0].lsym < LEN_SYMBOLS && toks[0].dsym < DIST_SYMBOLS && 1 <= DistanceOf(toks[0]) <= |h|
      && var h' := CopyBytes(h, LengthOf(toks[0]), DistanceOf(toks[0]));
         DeflateFormat.InReach(h', toks[1..]) && Expand(h, toks) == Expand(h', toks[1..])
  {
  }

  lemma SymbolRange(ls: Lengths, ds: Lengths, toks: seq<Token>, k: nat)
    requires TokensOk(ls, ds, toks) && k <= |toks|
    ensures k < |toks| ==> TokenOk(ls, ds, toks[k]) && (toks[k].Literal? <==> SymbolOfToken(Some(toks[k])) < 256)
    ensures k < |toks| ==> SymbolOfToken(Some(toks[k])) != 256
  {
  }

  /** Copies a match byte by byte through the window. */
  method CopyMatch(w: IoWindow, length: nat, offset: nat)
    requires w.Valid() && w.Recent() && 1 <= offset <= |w.Total()| && offset <= w.capacity
    modifies w, w.data
    ensures w.Valid() && w.Recent() && w.Total() == CopyBytes(old(w.Total()), length, offset)
  {
    hide CopyBytes, IoWindow.Total;
    var i := 0;
    ghost var h0 := w.Total();
    CopyNone(h0, offset, length);
    while i < length
      invariant 0 <= i <= length
      invariant w.Valid() && w.Recent() && offset <= |w.Total()|
      invariant CopyBytes(w.Total(), length - i, offset) == CopyBytes(h0, length, offset)
    {
      CopyOne(w.Total(), length - i, offset);
      w.InReach(offset);
      var val := w.PeekFromBack(offset);
      Put(w, val);
      i := i + 1;
      CopyNone(w.Total(), offset, length - i);
    }
  }

  lemma CopyNone(h: seq<Byte>, dist: nat, n: nat)
    requires 1 <= dist <= |h|
    ensures n == 0 ==> CopyBytes(h, n, dist) == h
  {
  }

  lemma CopyOne(h: seq<Byte>, n: nat, dist: nat)
    requires 1 <= dist <= |h| && n > 0
    ensures CopyBytes(h, n, dist) == CopyBytes(h + [h[|h| - dist]], n - 1, dist)
  {
  }

  /** Writes one byte to the window. */
  method Put(w: IoWindow, b: Byte)
    requires w.Valid() && w.Recent()
    modifies w, w.data
    ensures w.Valid() && w.Recent() && w.Total() == old(w.Total()) + [b]
  {
    var n := w.Write([b]);
    assert [b][..n] == [b];
  }
}
