/** Packing and unpacking of inter-process calls in place (libs/ipc/pack.c, unpack.c, hooks.c). */
module IpcBuffers {
  import opened Bits
  import opened IpcFormat
  import C = Capabilities

  const PAGE: nat := 4096
  const MAX_HANDLES: nat := C.ARGS - 1

  function AlignUp(n: nat): (r: nat)
    ensures n <= r < n + 4096 && r % 4096 == 0
  {
    (n + PAGE - 1) / PAGE * PAGE
  }

  class Pack {
    var buf: array<Byte> // of length 0 before the first byte
    var curr: nat
    var handles: seq<nat>

    ghost predicate Valid()
      reads this
    {
      curr <= buf.Length && |handles| <= MAX_HANDLES
    }

    /** Everything packed so far. */
    ghost function Written(): seq<Byte>
      requires Valid()
      reads this, buf
    {
      buf[..curr]
    }

    constructor ()
      ensures Valid() && Written() == [] && handles == [] && fresh(buf)
    {
      buf, curr, handles := new Byte[0], 0, [];
    }

    /** ipc_pack_ensure: what was packed moves to a larger buffer. */
    method Ensure(cap: nat)
      requires Valid() && curr <= cap
      modifies `buf
      ensures Valid() && cap <= buf.Length && Written() == old(Written())
      ensures buf == old(buf) || (fresh(buf) && buf.Length == AlignUp(cap))
    {
      if buf.Length >= cap {
        return;
      }
      var larger := new Byte[AlignUp(cap)](_ => 0);
      var i: nat := 0;
      while i < curr
        invariant i <= curr && larger[..i] == buf[..i]
        modifies larger
      {
        larger[i] := buf[i];
        assert larger[..i + 1] == larger[..i] + [larger[i]];
        i := i + 1;
      }
      buf := larger;
    }

    /** ipc_pack. */
    method Bytes(data: seq<Byte>)
      requires Valid()
      modifies `buf, `curr, buf
      ensures Valid() && (buf == old(buf) || fresh(buf))
      ensures Written() == old(Written()) + data
    {
      Ensure(curr + |data|);
      CopyInto(buf, curr, data);
      curr := curr + |data|;
    }

    /** mem_cpy. */
    static method CopyInto(buf: array<Byte>, pos: nat, data: seq<Byte>)
      requires pos + |data| <= buf.Length
      modifies buf
      ensures buf[..pos + |data|] == old(buf[..pos]) + data
    {
      ghost var before := buf[..pos];
      var i: nat := 0;
      while i < |data|
        invariant i <= |data|
        invariant forall j: nat | j < pos :: buf[j] == before[j]
        invariant forall j: nat | j < i :: buf[pos + j] == data[j]
      {
        buf[pos + i] := data[i];
        i := i + 1;
      }
      assert forall j: nat | pos <= j < pos + |data| :: buf[j] == data[j - pos] by {
        forall j: nat | pos <= j < pos + |data| ensures buf[j] == data[j - pos] {
          assert buf[pos + (j - pos)] == data[j - pos];
        }
      }
    }

    /** ipc_pack_handle. */
    method PackHandle(h: nat)
      requires Valid() && |handles| < MAX_HANDLES
      modifies this, buf
      ensures Valid() && (buf == old(buf) || fresh(buf))
      ensures Written() == old(Written()) + Encode(Handle(h)) && handles == old(handles) + HandlesOf(Handle(h))
    {
      handles := handles + [h];
      Bytes(Le(h, WORD));
    }

    /** ipc_pack_str. */
    method PackText(text: seq<Byte>)
      requires Valid()
      modifies this, buf
      ensures Valid() && (buf == old(buf) || fresh(buf))
      ensures Written() == old(Written()) + Encode(Text(text)) && handles == old(handles)
    {
      Regroup(Written(), Le(|text|, WORD), text);
      assert Encode(Text(text)) == Le(|text|, WORD) + text;
      hide Encode, Le;
      Bytes(Le(|text|, WORD));
      Bytes(text);
    }

    /** A packing function as generated for a type: fields and elements in order. More than four handles is an assertion
        failure. */
    method PackValue(v: Value)
      requires Valid() && |handles| + |HandlesOf(v)| <= MAX_HANDLES
      modifies this, buf
      ensures Valid() && (buf == old(buf) || fresh(buf))
      ensures Written() == old(Written()) + Encode(v) && handles == old(handles) + HandlesOf(v)
      decreases v, 1
    {
      assert v.Pod? ==> Encode(v) == v.bytes && HandlesOf(v) == [];
      assert v.Text? ==> HandlesOf(v) == [];
      assert v.Struct? ==> Encode(v) == EncodeAll(v.fields) && HandlesOf(v) == HandlesAll(v.fields);
      assert v.Slice? ==> HandlesOf(v) == HandlesAll(v.elems);
      assert v.Handle? ==> |HandlesOf(v)| == 1;
      hide Encode, HandlesOf, EncodeAll, HandlesAll;
      match v
      case Pod(bytes) => Bytes(bytes);
      case Handle(h) => PackHandle(h);
      case Text(text) => PackText(text);
      case Slice(es) => PackSlice(es);
      case Struct(fs) => PackAll(fs);
    }

    /** ipc_pack_slice_impl. */
    method PackSlice(es: seq<Value>)
      requires Valid() && |handles| + |HandlesAll(es)| <= MAX_HANDLES
      modifies this, buf
      ensures Valid() && (buf == old(buf) || fresh(buf))
      ensures Written() == old(Written()) + Encode(Slice(es)) && handles == old(handles) + HandlesAll(es)
      decreases es, 1
    {
      Regroup(Written(), Le(|es|, WORD), EncodeAll(es));
      assert Encode(Slice(es)) == Le(|es|, WORD) + EncodeAll(es);
      hide Encode, HandlesOf, EncodeAll, HandlesAll, Le;
      Bytes(Le(|es|, WORD));
      PackAll(es);
    }

    /** Values one after the other. */
    method PackAll(vs: seq<Value>)
      requires Valid() && |handles| + |HandlesAll(vs)| <= MAX_HANDLES
      modifies this, buf
      ensures Valid() && (buf == old(buf) || fresh(buf))
      ensures Written() == old(Written()) + EncodeAll(vs) && handles == old(handles) + HandlesAll(vs)
      decreases vs, 0
    {
      assert EncodeAll(vs[..0]) == [] && HandlesAll(vs[..0]) == [];
      hide EncodeAll, HandlesAll, Encode, HandlesOf;
      ghost var written, given := Written(), handles;
      var i: nat := 0;
      while i < |vs|
        invariant i <= |vs| && Valid() && (buf == old(buf) || fresh(buf))
        invariant Written() == written + EncodeAll(vs[..i]) && handles == given + HandlesAll(vs[..i])
      {
        assert |HandlesAll(vs[..i + 1])| <= |HandlesAll(vs)| by { PiecesInOrder(vs, i + 1); }
        PiecesStep(vs, i);
        PackValue(vs[i]);
        Regroup(written, EncodeAll(vs[..i]), Encode(vs[i]));
        Regroup(given, HandlesAll(vs[..i]), HandlesOf(vs[i]));
        i := i + 1;
      }
      assert vs[..i] == vs;
    }
  }

  class Unpack {
    const buf: seq<Byte>
    const handles: seq<nat>
    var curr: nat
    var currentHandle: nat

    constructor (buf: seq<Byte>, handles: seq<nat>)
      ensures this.buf == buf && this.handles == handles && curr == 0 && currentHandle == 0
    {
      this.buf, this.handles, curr, currentHandle := buf, handles, 0, 0;
    }

    ghost predicate Valid()
      reads this
    {
      curr <= |buf| && currentHandle <= |handles| == MAX_HANDLES
    }

    /** These bytes come next. */
    ghost predicate Next(data: seq<Byte>)
      requires Valid()
      reads this
    {
      data <= buf[curr..]
    }

    /** ipc_unpack. */
    method Bytes(len: nat) returns (r: seq<Byte>)
      requires Valid() && curr + len <= |buf|
      modifies `curr
      ensures Valid() && curr == old(curr) + len && r == buf[old(curr)..curr]
    {
      r := buf[curr..curr + len];
      curr := curr + len;
    }

    method Word(ghost n: nat) returns (r: nat)
      requires Valid() && n < Limit(WORD) && Next(Le(n, WORD))
      modifies `curr
      ensures Valid() && curr == old(curr) + WORD && r == n
    {
      hide Le, FromLe;
      ghost var w, c := Le(n, WORD), curr;
      assert w == buf[c..][..WORD] == buf[c..c + WORD];
      var b := Bytes(WORD);
      LeRoundTrip(n, WORD);
      r := FromLe(b);
    }

    /** ipc_unpack_handle: the number in the buffer is skipped, the delivered handle taken. */
    method UnpackHandle(ghost h: nat) returns (r: nat)
      requires Valid() && currentHandle < MAX_HANDLES && Next(Encode(Handle(h)))
      modifies this
      ensures Valid() && curr == old(curr) + |Encode(Handle(h))| && currentHandle == old(currentHandle) + 1
      ensures r == handles[old(currentHandle)]
    {
      var _ := Bytes(WORD);
      r := handles[currentHandle];
      currentHandle := currentHandle + 1;
    }

    /** ipc_unpack_str. */
    method UnpackText(ghost text: seq<Byte>) returns (r: seq<Byte>)
      requires Valid() && |text| < Limit(WORD) && Next(Encode(Text(text)))
      modifies this
      ensures Valid() && curr == old(curr) + |Encode(Text(text))| && currentHandle == old(currentHandle)
      ensures r == text
    {
      ghost var c0 := curr;
      assert buf[c0..][..WORD] == Le(|text|, WORD) && buf[c0 + WORD..][..|text|] == text by {
        Parts(Le(|text|, WORD), text, buf[c0..]);
        assert buf[c0..][WORD..] == buf[c0 + WORD..];
      }
      var len := Word(|text|);
      r := Bytes(len);
      assert r == buf[c0 + WORD..][..|text|];
    }

    /** An unpacking function as generated for a type: given the encoding of any value v of that type, it returns v with
        the k-th handle replaced by the k-th one delivered. */
    method UnpackValue(sh: Shape, ghost v: Value) returns (r: Value)
      requires Valid() && Typed(v, sh) && Next(Encode(v)) && currentHandle + |HandlesOf(v)| <= MAX_HANDLES
      modifies this
      ensures Valid() && curr == old(curr) + |Encode(v)| && currentHandle == old(currentHandle) + |HandlesOf(v)|
      ensures r == Renamed(v, handles[old(currentHandle)..])
      decreases sh, 1
    {
      match sh
      case PodOf(size) =>
        ghost var c0 := curr;
        var b := Bytes(size);
        assert b == buf[c0..][..size];
        r := Pod(b);
      case HandleOf =>
        var h := UnpackHandle(v.handle);
        r := Handle(h);
      case TextOf =>
        var t := UnpackText(v.text);
        r := Text(t);
      case SliceOf(elem) =>
        ghost var c0 := curr;
        assert buf[c0..][..WORD] == Le(|v.elems|, WORD) && EncodeAll(v.elems) <= buf[c0 + WORD..] by {
          Parts(Le(|v.elems|, WORD), EncodeAll(v.elems), buf[c0..]);
          assert buf[c0..][WORD..] == buf[c0 + WORD..];
        }
        var len := Word(|v.elems|);
        var es := UnpackElems(elem, len, v.elems);
        r := Slice(es);
      case StructOf(shapes) =>
        var fs := UnpackFields(shapes, v.fields);
        r := Struct(fs);
    }

    /** The loop of ipc_unpack_slice_impl. */
    method UnpackElems(elem: Shape, len: nat, ghost vs: seq<Value>) returns (r: seq<Value>)
      requires Valid() && len == |vs| && Next(EncodeAll(vs)) && currentHandle + |HandlesAll(vs)| <= MAX_HANDLES
      requires forall i | 0 <= i < |vs| :: Typed(vs[i], elem)
      modifies this
      ensures Valid() && curr == old(curr) + |EncodeAll(vs)| && currentHandle == old(currentHandle) + |HandlesAll(vs)|
      ensures r == RenamedAll(vs, handles[old(currentHandle)..])
      decreases elem, 2
    {
      hide EncodeAll, HandlesAll, Encode, HandlesOf, Typed, Renamed, RenamedAll;
      ghost var c0, k0 := curr, currentHandle;
      UnpackStart(vs, handles[k0..]);
      r := [];
      var i: nat := 0;
      while i < len
        invariant i <= len && Valid() && |HandlesAll(vs[..i])| <= |handles[k0..]|
        invariant curr == c0 + |EncodeAll(vs[..i])| && currentHandle == k0 + |HandlesAll(vs[..i])|
        invariant r == RenamedAll(vs[..i], handles[k0..])
      {
        UnpackStep(vs, buf, handles, c0, k0, i);
        var x := UnpackValue(elem, vs[i]);
        r := r + [x];
        i := i + 1;
      }
      assert vs[..i] == vs;
    }

    /** The fields of a structure one after the other. */
    method UnpackFields(shapes: seq<Shape>, ghost vs: seq<Value>) returns (r: seq<Value>)
      requires Valid() && |shapes| == |vs| && Next(EncodeAll(vs)) && currentHandle + |HandlesAll(vs)| <= MAX_HANDLES
      requires forall i | 0 <= i < |vs| :: Typed(vs[i], shapes[i])
      modifies this
      ensures Valid() && curr == old(curr) + |EncodeAll(vs)| && currentHandle == old(currentHandle) + |HandlesAll(vs)|
      ensures r == RenamedAll(vs, handles[old(currentHandle)..])
      decreases shapes, 0
    {
      hide EncodeAll, HandlesAll, Encode, HandlesOf, Typed, Renamed, RenamedAll;
      ghost var c0, k0 := curr, currentHandle;
      UnpackStart(vs, handles[k0..]);
      r := [];
      var i: nat := 0;
      while i < |shapes|
        invariant i <= |vs| && Valid() && |HandlesAll(vs[..i])| <= |handles[k0..]|
        invariant curr == c0 + |EncodeAll(vs[..i])| && currentHandle == k0 + |HandlesAll(vs[..i])|
        invariant r == RenamedAll(vs[..i], handles[k0..])
      {
        UnpackStep(vs, buf, handles, c0, k0, i);
        var x := UnpackValue(shapes[i], vs[i]);
        r := r + [x];
        i := i + 1;
      }
      assert vs[..i] == vs;
    }
  }

  lemma UnpackStart(vs: seq<Value>, hs: seq<nat>)
    ensures EncodeAll(vs[..0]) == [] && HandlesAll(vs[..0]) == [] && RenamedAll(vs[..0], hs) == []
  {
  }

  /** Where the i-th of several values starts, and which handles are left for it. */
  lemma UnpackStep(vs: seq<Value>, buf: seq<Byte>, handles: seq<nat>, c0: nat, k0: nat, i: nat)
    requires i < |vs| && c0 <= |buf| && k0 <= |handles| && EncodeAll(vs) <= buf[c0..]
      && k0 + |HandlesAll(vs)| <= |handles|
    ensures var c, k := c0 + |EncodeAll(vs[..i])|, k0 + |HandlesAll(vs[..i])|;
            && c <= |buf| && Encode(vs[i]) <= buf[c..] && c + |Encode(vs[i])| == c0 + |EncodeAll(vs[..i + 1])|
            && k + |HandlesOf(vs[i])| == k0 + |HandlesAll(vs[..i + 1])| <= k0 + |HandlesAll(vs)|
            && RenamedAll(vs[..i + 1], handles[k0..])
              == RenamedAll(vs[..i], handles[k0..]) + [Renamed(vs[i], handles[k..])]
  {
    hide EncodeAll, HandlesAll, Encode, HandlesOf, Renamed, RenamedAll;
    PiecesStep(vs, i);
    PiecesInOrder(vs, i + 1);
    RenamedStep(vs, handles[k0..], i);
    PieceIsNext(vs, buf[c0..], i);
    DropTwice(buf, c0, |EncodeAll(vs[..i])|);
    DropTwice(handles, k0, |HandlesAll(vs[..i])|);
  }

  lemma DropTwice<T>(s: seq<T>, a: nat, b: nat)
    requires a + b <= |s|
    ensures s[a..][b..] == s[a + b..]
  {
  }

  lemma Regroup<T>(a: seq<T>, b: seq<T>, c: seq<T>)
    ensures a + b + c == a + (b + c)
  {
  }

  lemma Parts<T>(a: seq<T>, b: seq<T>, s: seq<T>)
    requires a + b <= s
    ensures |a| <= |s| && s[..|a|] == a && b <= s[|a|..]
  {
    assert s[..|a + b|][..|a|] == a;
    assert s[|a|..][..|b|] == s[..|a + b|][|a|..];
  }

  lemma PieceIsNext(vs: seq<Value>, s: seq<Byte>, i: nat)
    requires i < |vs| && EncodeAll(vs) <= s
    ensures |EncodeAll(vs[..i])| <= |s| && Encode(vs[i]) <= s[|EncodeAll(vs[..i])|..]
  {
    hide EncodeAll, Encode, HandlesOf;
    PiecesStep(vs, i);
    PiecesInOrder(vs, i + 1);
    PrefixTrans(EncodeAll(vs[..i + 1]), EncodeAll(vs), s);
    Parts(EncodeAll(vs[..i]), Encode(vs[i]), s);
  }

  /** ipc_hook_call and ipc_hook_handle: the caller packs, the receiver unpacks the memory it was sent with the handles
      it was given. */
  method RoundTrip(v: Value, sh: Shape, delivered: seq<nat>) returns (handles: seq<nat>, r: Value)
    requires Typed(v, sh) && |HandlesOf(v)| <= MAX_HANDLES == |delivered|
    ensures handles == HandlesOf(v) && r == Renamed(v, delivered)
  {
    hide Encode, HandlesOf, Renamed, Typed;
    var p := new Pack();
    p.PackValue(v);
    assert p.buf[..][..p.curr] == p.buf[..p.curr];
    r := Open(p.buf[..], sh, v, delivered);
    handles := p.handles;
  }

  /** The receiver maps the memory and unpacks. */
  method Open(memory: seq<Byte>, sh: Shape, ghost v: Value, delivered: seq<nat>) returns (r: Value)
    requires Typed(v, sh) && Encode(v) <= memory && |HandlesOf(v)| <= MAX_HANDLES == |delivered|
    ensures r == Renamed(v, delivered)
  {
    var u := new Unpack(memory, delivered);
    assert memory[0..] == memory && delivered[0..] == delivered;
    r := u.UnpackValue(sh, v);
  }
}
