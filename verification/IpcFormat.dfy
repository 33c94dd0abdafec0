/** The wire format of inter-process calls (libs/ipc/pack.c, unpack.c): values, their encoding and the handles they
    carry. */
module IpcFormat {
  import opened Bits

  const WORD: nat := 8 // sizeof(size_t) and sizeof(BrHandle)

  /** What can be packed: plain data, handles, strings, slices, and structures packed field by field. */
  datatype Value =
    | Pod(bytes: seq<Byte>)
    | Handle(handle: nat)
    | Text(text: seq<Byte>)
    | Slice(elems: seq<Value>)
    | Struct(fields: seq<Value>)

  datatype Shape = PodOf(size: nat) | HandleOf | TextOf | SliceOf(elem: Shape) | StructOf(shapes: seq<Shape>)

  ghost predicate Typed(v: Value, sh: Shape)
    decreases v
  {
    match v
    case Pod(bytes) => sh.PodOf? && |bytes| == sh.size
    case Handle(h) => sh.HandleOf? && h < Limit(8)
    case Text(text) => sh.TextOf? && |text| < Limit(8)
    case Slice(es) => sh.SliceOf? && |es| < Limit(8) && forall i | 0 <= i < |es| :: Typed(es[i], sh.elem)
    case Struct(fs) => sh.StructOf? && |fs| == |sh.shapes| && forall i | 0 <= i < |fs| :: Typed(fs[i], sh.shapes[i])
  }

  // ----- Encoding ------------------------------------------------------------------------------

  ghost function Encode(v: Value): seq<Byte>
    decreases v
  {
    match v
    case Pod(bytes) => bytes
    case Handle(h) => Le(h, 8)
    case Text(text) => Le(|text|, 8) + text
    case Slice(es) => Le(|es|, 8) + EncodeAll(es)
    case Struct(fs) => EncodeAll(fs)
  }

  ghost function EncodeAll(vs: seq<Value>): seq<Byte>
    decreases vs
  {
    if vs == [] then [] else EncodeAll(vs[..|vs| - 1]) + Encode(vs[|vs| - 1])
  }

  /** The handles of a value, in packing order. */
  ghost function HandlesOf(v: Value): seq<nat>
    decreases v
  {
    match v
    case Pod(_) => []
    case Handle(h) => [h]
    case Text(_) => []
    case Slice(es) => HandlesAll(es)
    case Struct(fs) => HandlesAll(fs)
  }

  ghost function HandlesAll(vs: seq<Value>): seq<nat>
    decreases vs
  {
    if vs == [] then [] else HandlesAll(vs[..|vs| - 1]) + HandlesOf(vs[|vs| - 1])
  }

  /** The same value with its k-th handle replaced by hs[k]. */
  ghost function Renamed(v: Value, hs: seq<nat>): Value
    requires |HandlesOf(v)| <= |hs|
    decreases v
  {
    match v
    case Pod(_) => v
    case Handle(_) => Handle(hs[0])
    case Text(_) => v
    case Slice(es) => Slice(RenamedAll(es, hs))
    case Struct(fs) => Struct(RenamedAll(fs, hs))
  }

  ghost function RenamedAll(vs: seq<Value>, hs: seq<nat>): (r: seq<Value>)
    requires |HandlesAll(vs)| <= |hs|
    ensures |r| == |vs|
    decreases vs
  {
    if vs == [] then []
    else
      var n := |vs| - 1;
      RenamedAll(vs[..n], hs) + [Renamed(vs[n], hs[|HandlesAll(vs[..n])|..])]
  }

  // ----- Pieces of a sequence of values --------------------------------------------------------

  lemma {:induction false} PrefixTrans<T>(a: seq<T>, b: seq<T>, c: seq<T>)
    requires a <= b && b <= c
    ensures a <= c
  {
    assert c[..|a|] == c[..|b|][..|a|];
  }

  /** Elements come one after the other. */
  lemma PiecesStep(vs: seq<Value>, i: nat)
    requires i < |vs|
    ensures EncodeAll(vs[..i + 1]) == EncodeAll(vs[..i]) + Encode(vs[i])
    ensures HandlesAll(vs[..i + 1]) == HandlesAll(vs[..i]) + HandlesOf(vs[i])
  {
    hide Encode, HandlesOf;
    assert vs[..i + 1][..i] == vs[..i];
  }

  lemma {:induction false} PiecesInOrder(vs: seq<Value>, i: nat)
    requires i <= |vs|
    ensures EncodeAll(vs[..i]) <= EncodeAll(vs) && HandlesAll(vs[..i]) <= HandlesAll(vs)
    decreases |vs| - i
  {
    hide EncodeAll, HandlesAll;
    if i == |vs| {
      assert vs[..i] == vs;
    } else {
      PiecesStep(vs, i);
      PiecesInOrder(vs, i + 1);
      PrefixTrans(EncodeAll(vs[..i]), EncodeAll(vs[..i + 1]), EncodeAll(vs));
      PrefixTrans(HandlesAll(vs[..i]), HandlesAll(vs[..i + 1]), HandlesAll(vs));
    }
  }

  lemma RenamedStep(vs: seq<Value>, hs: seq<nat>, i: nat)
    requires i < |vs| && |HandlesAll(vs[..i + 1])| <= |hs|
    ensures |HandlesAll(vs[..i])| + |HandlesOf(vs[i])| == |HandlesAll(vs[..i + 1])|
    ensures RenamedAll(vs[..i + 1], hs) == RenamedAll(vs[..i], hs) + [Renamed(vs[i], hs[|HandlesAll(vs[..i])|..])]
  {
    hide Renamed;
    PiecesStep(vs, i);
    assert vs[..i + 1][..i] == vs[..i];
  }

  lemma {:induction false} RenamedHandles(v: Value, hs: seq<nat>)
    requires |HandlesOf(v)| <= |hs|
    ensures HandlesOf(Renamed(v, hs)) == hs[..|HandlesOf(v)|]
    decreases v
  {
    match v
    case Slice(es) => RenamedAllHandles(es, hs);
    case Struct(fs) => RenamedAllHandles(fs, hs);
    case _ =>
  }

  lemma {:induction false} RenamedAllHandles(vs: seq<Value>, hs: seq<nat>)
    requires |HandlesAll(vs)| <= |hs|
    ensures HandlesAll(RenamedAll(vs, hs)) == hs[..|HandlesAll(vs)|]
    decreases vs
  {
    if vs != [] {
      var m := |vs| - 1;
      var k := |HandlesAll(vs[..m])|;
      RenamedAllHandles(vs[..m], hs);
      RenamedHandles(vs[m], hs[k..]);
      var all := RenamedAll(vs, hs);
      assert all[..m] == RenamedAll(vs[..m], hs);
      assert hs[..|HandlesAll(vs)|] == hs[..k] + hs[k..][..|HandlesOf(vs[m])|];
    }
  }

  /** Only the last renaming counts. */
  lemma {:induction false} RenamedTwice(v: Value, hs: seq<nat>, hs': seq<nat>)
    requires |HandlesOf(v)| <= |hs| && |HandlesOf(v)| <= |hs'|
    ensures |HandlesOf(Renamed(v, hs))| <= |hs'| && Renamed(Renamed(v, hs), hs') == Renamed(v, hs')
    decreases v
  {
    RenamedHandles(v, hs);
    match v
    case Slice(es) => RenamedAllTwice(es, hs, hs');
    case Struct(fs) => RenamedAllTwice(fs, hs, hs');
    case _ =>
  }

  lemma {:induction false} RenamedAllTwice(vs: seq<Value>, hs: seq<nat>, hs': seq<nat>)
    requires |HandlesAll(vs)| <= |hs| && |HandlesAll(vs)| <= |hs'|
    ensures |HandlesAll(RenamedAll(vs, hs))| <= |hs'| && RenamedAll(RenamedAll(vs, hs), hs') == RenamedAll(vs, hs')
    decreases vs
  {
    RenamedAllHandles(vs, hs);
    if vs != [] {
      var m := |vs| - 1;
      var k := |HandlesAll(vs[..m])|;
      RenamedAllHandles(vs[..m], hs);
      RenamedAllTwice(vs[..m], hs, hs');
      RenamedTwice(vs[m], hs[k..], hs'[k..]);
      var all := RenamedAll(vs, hs);
      assert all[..m] == RenamedAll(vs[..m], hs);
    }
  }
}
