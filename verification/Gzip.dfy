/** The gzip container (codec-gzip/gzip.c; sections 2.3 and 8 of RFC 1952) around a DEFLATE stream. */
module Gzip {
  import opened Bits
  import opened BitReader
  import opened Words
  import opened Crc32
  import opened InflateStream
  import opened InflateBlocks
  import opened Deflate

  const ID1: Byte := 0x1f
  const ID2: Byte := 0x8b
  const DEFLATE: Byte := 8

  // ----- Headers -------------------------------------------------------------------------------

  datatype Field<T> = Absent | Present(value: T)

  /** The member header: six bytes that are skipped, then the optional fields announced by the flags. */
  datatype Header = Header(text: bool, time: seq<Byte>, extra: Field<seq<Byte>>, name: Field<seq<Byte>>,
                           comment: Field<seq<Byte>>, crc16: Field<seq<Byte>>)

  ghost predicate NoZero(s: seq<Byte>) {
    forall i | 0 <= i < |s| :: s[i] != 0
  }

  ghost predicate HeaderOk(h: Header) {
    && |h.time| == 6
    && (h.extra.Present? ==> |h.extra.value| <= 65535)
    && (h.name.Present? ==> NoZero(h.name.value))
    && (h.comment.Present? ==> NoZero(h.comment.value))
    && (h.crc16.Present? ==> |h.crc16.value| == 2)
  }

  ghost function FlagsOf(h: Header): Byte {
    (if h.text then 1 else 0) + (if h.crc16.Present? then 2 else 0) + (if h.extra.Present? then 4 else 0)
    + (if h.name.Present? then 8 else 0) + (if h.comment.Present? then 16 else 0)
  }

  ghost function ExtraBytes(f: Field<seq<Byte>>): seq<Byte> {
    if f.Present? then Le(|f.value|, 2) + f.value else []
  }

  ghost function StringBytes(f: Field<seq<Byte>>): seq<Byte> {
    if f.Present? then f.value + [0] else []
  }

  ghost function PlainBytes(f: Field<seq<Byte>>): seq<Byte> {
    if f.Present? then f.value else []
  }

  ghost function HeaderBytes(h: Header): seq<Byte> {
    [0x1f, 0x8b, 8, FlagsOf(h)]
      + (h.time + (ExtraBytes(h.extra) + (StringBytes(h.name) + (StringBytes(h.comment) + PlainBytes(h.crc16)))))
  }

  /** io_skip. */
  method Skip(r: IoRBits, n: nat, ghost skipped: seq<Byte>, ghost rest: seq<Byte>)
    requires r.Valid() && r.data[r.pos..] == skipped + rest && |skipped| == n
    modifies r`pos
    ensures r.Valid() && r.data[r.pos..] == rest
  {
    var b := r.Read(n);
    assert (skipped + rest)[n..] == rest;
  }

  /** Skips a zero-terminated string. */
  method SkipString(r: IoRBits, ghost s: seq<Byte>, ghost rest: seq<Byte>)
    requires r.Valid() && r.data[r.pos..] == s + [0] + rest && NoZero(s)
    modifies r`pos
    ensures r.Valid() && r.data[r.pos..] == rest
  {
    ghost var k := 0;
    assert s[0..] == s;
    var val: Byte := 1;
    while val != 0
      invariant 0 <= k <= |s| + 1 && r.Valid() && (val == 0 <==> k == |s| + 1)
      invariant r.data[r.pos..] == if k <= |s| then s[k..] + [0] + rest else rest
      decreases |s| + 1 - k
    {
      ghost var here := r.data[r.pos..];
      assert here[0] == (if k < |s| then s[k] else 0);
      assert here[1..] == if k < |s| then s[k + 1..] + [0] + rest else rest;
      var b := r.Read(1);
      val := b[0];
      k := k + 1;
    }
  }

  lemma FlagBits(h: Header)
    ensures var f := FlagsOf(h);
            && f < 32
            && (f / 2 % 2 == 1 <==> h.crc16.Present?) && (f / 4 % 2 == 1 <==> h.extra.Present?)
            && (f / 8 % 2 == 1 <==> h.name.Present?) && (f / 16 % 2 == 1 <==> h.comment.Present?)
  {
  }

  /** The optional header fields, in order. */
  method SkipFields(r: IoRBits, flags: Byte, ghost h: Header, ghost body: seq<Byte>)
    requires r.Valid() && HeaderOk(h) && flags == FlagsOf(h)
    requires r.data[r.pos..]
      == ExtraBytes(h.extra) + (StringBytes(h.name) + (StringBytes(h.comment) + PlainBytes(h.crc16))) + body
    modifies r`pos
    ensures r.Valid() && r.data[r.pos..] == body
  {
    FlagBits(h);
    hide FlagsOf;
    ghost var e, n, c, p := ExtraBytes(h.extra), StringBytes(h.name), StringBytes(h.comment), PlainBytes(h.crc16);
    assert e + (n + (c + p)) + body == e + (n + (c + (p + body)));
    if flags / 4 % 2 == 1 {
      ghost var rest := n + (c + (p + body));
      assert e + rest == Le(|h.extra.value|, 2) + (h.extra.value + rest);
      var len := r.Read(2);
      assert len == Le(|h.extra.value|, 2) && r.data[r.pos..] == h.extra.value + rest;
      LeRoundTrip(|h.extra.value|, 2);
      Skip(r, FromLe(len), h.extra.value, rest);
    }
    assert r.data[r.pos..] == n + (c + (p + body));
    if flags / 8 % 2 == 1 {
      SkipString(r, h.name.value, c + (p + body));
    }
    assert r.data[r.pos..] == c + (p + body);
    if flags / 16 % 2 == 1 {
      SkipString(r, h.comment.value, p + body);
    }
    assert r.data[r.pos..] == p + body;
    if flags / 2 % 2 == 1 {
      Skip(r, 2, p, body);
    }
  }

  // ----- Members -------------------------------------------------------------------------------

  datatype GzResult = Ok(out: seq<Byte>, size: nat) | InvalidData | NotImplemented | BadStream | ChecksumMismatch

  /** The fixed part of the header is acceptable. */
  predicate KnownMember(data: seq<Byte>)
    requires |data| >= 4
  {
    data[0] == 0x1f && data[1] == 0x8b && data[2] == 8 && data[3] < 32
  }

  /** A member: header, DEFLATE stream, and at least the eight trailer bytes. */
  ghost predicate Member(data: seq<Byte>, h: Header, body: seq<Byte>, blocks: seq<Block>, tail: seq<bool>,
                         trailer: seq<Byte>) {
    && HeaderOk(h) && data == HeaderBytes(h) + body
    && Stream(ByteBits(body), [], blocks, tail)
    && |trailer| >= 8 && Unused(trailer, tail)
  }

  /** What the trailer says about the output. */
  function Verdict(out: seq<Byte>, trailer: seq<Byte>): GzResult
    requires |trailer| >= 8
  {
    if FromLe(trailer[..4]) != Number(Crc(out)) then ChecksumMismatch
    else if FromLe(trailer[4..8]) != |out| then InvalidData
    else Ok(out, |out|)
  }

  /** gzip_decompress_stream: the member is accepted exactly if its blocks are and both trailer fields agree. */
  method Decompress(data: seq<Byte>, ghost h: Header, ghost body: seq<Byte>, ghost blocks: seq<Block>,
                    ghost tail: seq<bool>, ghost trailer: seq<Byte>)
    returns (r: GzResult)
    requires |data| >= 4 && (KnownMember(data) ==> Member(data, h, body, blocks, tail, trailer))
    ensures data[0] != 0x1f || data[1] != 0x8b ==> r == InvalidData
    ensures data[0] == 0x1f && data[1] == 0x8b && data[2] != 8 ==> r == NotImplemented
    ensures data[0] == 0x1f && data[1] == 0x8b && data[2] == 8 && data[3] >= 32 ==> r == InvalidData
    ensures KnownMember(data) ==> r == if AllOk(blocks) then Verdict(Output([], blocks), trailer) else BadStream
  {
    hide Stream, Output, AllOk, ByteBits, Register, FlagsOf, Unused;
    var reader := new IoRBits(data);
    assert data[0..] == data;
    var id1 := reader.Read(1);
    var id2 := reader.Read(1);
    if id1[0] != ID1 || id2[0] != ID2 { return InvalidData; }
    var cm := reader.Read(1);
    if cm[0] != DEFLATE { return NotImplemented; }
    var flags := reader.Read(1);
    if flags[0] >= 32 { return InvalidData; }
    assert flags[0] == data[3];
    assert KnownMember(data);
    AfterFlags(data, h, body);
    ghost var fields := ExtraBytes(h.extra) + (StringBytes(h.name) + (StringBytes(h.comment) + PlainBytes(h.crc16)));
    Skip(reader, 6, h.time, fields + body);
    SkipFields(reader, flags[0], h, body);
    var ok, out, size, left := InflateBlocks.Decompress(reader.data[reader.pos..], blocks, tail);
    if !ok { return BadStream; }
    SameLeft(left, trailer, tail);
    var crc := new Checksum();
    crc.Pass(out);
    assert [] + out == out;
    var sum := crc.Get();
    if FromLe(left[..4]) != Number(sum) { return ChecksumMismatch; }
    if FromLe(left[4..8]) != size { return InvalidData; }
    return Ok(out, size);
  }

  lemma AfterFlags(data: seq<Byte>, h: Header, body: seq<Byte>)
    requires data == HeaderBytes(h) + body
    ensures |data| >= 4 && data[3] == FlagsOf(h)
    ensures data[1..][1..][1..][1..]
         == h.time + (ExtraBytes(h.extra) + (StringBytes(h.name) + (StringBytes(h.comment) + PlainBytes(h.crc16)))
           + body)
  {
    hide FlagsOf, ExtraBytes, StringBytes, PlainBytes;
    var fields := ExtraBytes(h.extra) + (StringBytes(h.name) + (StringBytes(h.comment) + PlainBytes(h.crc16)));
    assert data == [ID1, ID2, DEFLATE, FlagsOf(h)] + (h.time + (fields + body));
  }

  lemma SameLeft(left: seq<Byte>, trailer: seq<Byte>, tail: seq<bool>)
    requires Unused(left, tail) && Unused(trailer, tail)
    ensures left == trailer
  {
    assert ByteBits(left) == ByteBits(trailer) + [];
    BytesOfBits(left, trailer, []);
    assert |ByteBits(left)| == |ByteBits(trailer)|;
  }

  // ----- Compression and round trip ------------------------------------------------------------

  const PLAIN_HEADER := Header(false, [0, 0, 0, 0, 0, 0], Absent, Absent, Absent, Absent)

  function Trailer(x: seq<Byte>): (r: seq<Byte>)
    ensures |r| == 8
  {
    Le(Number(Crc(x)), 4) + Le(|x|, 4)
  }

  /** gzip_compress_stream: header, stored blocks, checksum and size; the returned size counts the DEFLATE part only. */
  method Compress(x: seq<Byte>) returns (out: seq<Byte>, compressed: nat)
    ensures out == [0x1f, 0x8b, 8, 0] + [0, 0, 0, 0, 0, 0] + (StoredStream(x) + Trailer(x))
    ensures compressed == |out| - 18
  {
    hide StoredStream, Register, Number, Crc, Le, Xor;
    out := [ID1] + [ID2] + [DEFLATE] + [0];
    for i := 0 to 6
      invariant out == [ID1, ID2, DEFLATE, 0] + seq(i, j => 0)
    {
      out := out + [0];
    }
    var crc := new Checksum();
    crc.Pass(x);
    assert [] + x == x;
    var body, total := CompressStream(x);
    var sum := crc.Get();
    ghost var head := out;
    out := out + body;
    out := out + Le(Number(sum), 4);
    out := out + Le(crc.count, 4);
    assert out == head + (body + (Le(Number(sum), 4) + Le(crc.count, 4)));
    compressed := total;
  }

  /** A freshly compressed member is a member, and its trailer describes x up to 2^32 bytes. */
  lemma CompressedIsMember(x: seq<Byte>, out: seq<Byte>)
    requires out == [0x1f, 0x8b, 8, 0] + [0, 0, 0, 0, 0, 0] + (StoredStream(x) + Trailer(x))
    ensures KnownMember(out)
    ensures Member(out, PLAIN_HEADER, StoredStream(x) + Trailer(x), BlocksOf(x), ByteBits(Trailer(x)), Trailer(x))
    ensures AllOk(BlocksOf(x)) && Output([], BlocksOf(x)) == x
    ensures Verdict(x, Trailer(x)) == if |x| < 0x1_0000_0000 then Ok(x, |x|) else InvalidData
  {
    hide Stream, Output, AllOk, StoredStream, Trailer, ByteBits, Verdict, Unused, HeaderBytes, HeaderOk, BlocksOf,
      KnownMember, PLAIN_HEADER;
    KnownStart(out, StoredStream(x) + Trailer(x));
    StoredIsStream(x, [], Trailer(x));
    assert [] + x == x;
    PlainHeader();
    WholeBytes(Trailer(x));
    TrailerVerdict(x);
  }

  lemma KnownStart(out: seq<Byte>, rest: seq<Byte>)
    requires out == [0x1f, 0x8b, 8, 0] + [0, 0, 0, 0, 0, 0] + rest
    ensures |out| >= 4 && KnownMember(out)
  {
  }

  lemma PlainHeader()
    ensures HeaderOk(PLAIN_HEADER) && HeaderBytes(PLAIN_HEADER) == [0x1f, 0x8b, 8, 0] + [0, 0, 0, 0, 0, 0]
  {
  }

  lemma WholeBytes(t: seq<Byte>)
    ensures Unused(t, ByteBits(t))
  {
    hide ByteBits;
    var b := ByteBits(t);
    assert |b| % 8 == 0;
    assert b[0..] == b;
  }

  lemma TrailerVerdict(x: seq<Byte>)
    ensures Verdict(x, Trailer(x)) == if |x| < 0x1_0000_0000 then Ok(x, |x|) else InvalidData
  {
    hide Crc, Number, Le, FromLe;
    var t := Trailer(x);
    assert t[..4] == Le(Number(Crc(x)), 4) && t[4..8] == Le(|x|, 4);
    assert Pow2(8) == 256;
    Pow2Add(8, 8);
    Pow2Add(16, 16);
    assert Limit(4) == 0x1_0000_0000 == Pow2(32);
    LeRoundTrip(Number(Crc(x)), 4);
    LeWraps(|x|, 4);
    FromLeBound(t[4..8]);
  }

  /** Compressing and decompressing gives back x exactly when x is shorter than 2^32 bytes. */
  method RoundTrip(x: seq<Byte>) returns (r: GzResult)
    ensures r == if |x| < 0x1_0000_0000 then Ok(x, |x|) else InvalidData
  {
    hide Stream, Output, AllOk, StoredStream, Member, Verdict;
    var packed, _ := Compress(x);
    CompressedIsMember(x, packed);
    r := Decompress(packed, PLAIN_HEADER, StoredStream(x) + Trailer(x), BlocksOf(x), ByteBits(Trailer(x)), Trailer(x));
  }
}
