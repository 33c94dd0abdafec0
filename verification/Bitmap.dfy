/** Bit arrays packed into bytes (libs/brutal-ds/bits.h, bits.c). */
module Bitmap {
  import opened Basics

  type Flags = seq<bool>

  /** A range of bits. */
  datatype Range = Range(base: nat, size: nat)

  function Mask(k: nat): bv8
    requires k < 8
  {
    if k == 0 then 1 else if k == 1 then 2 else if k == 2 then 4 else if k == 3 then 8
    else if k == 4 then 16 else if k == 5 then 32 else if k == 6 then 64 else 128
  }

  /** 1 << k. */
  lemma MaskDoubles(k: nat)
    requires k < 7
    ensures Mask(0) == 1 && Mask(k + 1) == Mask(k) << 1
  {
  }

  predicate Bit(b: bv8, k: nat)
    requires k < 8
  {
    b & Mask(k) != 0
  }

  /** Setting or clearing one bit of a byte touches no other. */
  lemma BitUpdated(b: bv8, k: nat, j: nat)
    requires k < 8 && j < 8
    ensures Bit(b | Mask(k), j) == (j == k || Bit(b, j))
    ensures Bit(b & !Mask(k), j) == (j != k && Bit(b, j))
  {
  }

  function Write(b: bv8, k: nat, value: bool): bv8
    requires k < 8
  {
    if value then b | Mask(k) else b & !Mask(k)
  }

  /** The bits of a sequence of bytes, lowest first in each byte. */
  ghost function Unpack(bytes: seq<bv8>): (f: Flags)
    ensures |f| == 8 * |bytes|
  {
    seq(8 * |bytes|, i requires 0 <= i < 8 * |bytes| => Bit(bytes[i / 8], i % 8))
  }

  lemma UnpackUpdate(bytes: seq<bv8>, i: nat, value: bool)
    requires i < 8 * |bytes|
    ensures Unpack(bytes[i / 8 := Write(bytes[i / 8], i % 8, value)]) == Unpack(bytes)[i := value]
  {
    var bytes' := bytes[i / 8 := Write(bytes[i / 8], i % 8, value)];
    forall j: nat | j < 8 * |bytes| ensures Unpack(bytes')[j] == Unpack(bytes)[i := value][j] {
      hide Bit, Mask, Write;
      WriteBit(bytes[i / 8], i % 8, value, j % 8);
      Position(i, j);
    }
  }

  lemma WriteBit(b: bv8, k: nat, value: bool, j: nat)
    requires k < 8 && j < 8
    ensures Bit(Write(b, k, value), j) == if j == k then value else Bit(b, j)
  {
    BitUpdated(b, k, j);
  }

  lemma Position(i: nat, j: nat)
    ensures i == j <==> i / 8 == j / 8 && i % 8 == j % 8
  {
  }

  lemma FilledNone(f: Flags, base: nat, value: bool)
    ensures Filled(f, Range(base, 0), value) == f
  {
  }

  lemma FilledOn(f: Flags, base: nat, n: nat, value: bool)
    requires base + n < |f|
    ensures Filled(f, Range(base, n), value)[base + n] == f[base + n]
    ensures Filled(f, Range(base, n + 1), value) == Filled(f, Range(base, n), value)[base + n := value]
  {
  }

  // ----- Runs ----------------------------------------------------------------------------------

  /** All bits of a range have this value. */
  ghost predicate All(flags: Flags, r: Range, value: bool) {
    r.base + r.size <= |flags| && forall i | r.base <= i < r.base + r.size :: flags[i] == value
  }

  /** [base, base + size) is free. */
  ghost predicate Free(flags: Flags, base: nat, size: nat) {
    All(flags, Range(base, size), false)
  }

  function Filled(flags: Flags, r: Range, value: bool): (s: Flags)
    ensures |s| == |flags|
  {
    seq(|flags|, i requires 0 <= i < |flags| => if r.base <= i < r.base + r.size then value else flags[i])
  }

  /** How many bits are set. */
  function Population(flags: Flags): nat {
    if flags == [] then 0 else Population(flags[..|flags| - 1]) + One(flags[|flags| - 1])
  }

  lemma {:induction false} PopulationUpdate(flags: Flags, i: nat, value: bool)
    requires i < |flags|
    ensures Population(flags[i := value]) + One(flags[i]) == Population(flags) + One(value)
    decreases |flags|
  {
    var n := |flags| - 1;
    if i == n {
      assert flags[i := value][..n] == flags[..n];
    } else {
      assert flags[i := value][..n] == flags[..n][i := value];
      PopulationUpdate(flags[..n], i, value);
    }
  }

  /** Filling a range that had the opposite value moves the population by its size. */
  lemma {:induction false} FillPopulation(flags: Flags, r: Range, value: bool)
    requires All(flags, r, !value)
    ensures Population(Filled(flags, r, value)) == if value then Population(flags) + r.size
      else Population(flags) - r.size
    decreases r.size
  {
    if r.size == 0 {
      assert Filled(flags, r, value) == flags;
    } else {
      var less := Range(r.base, r.size - 1);
      FillPopulation(flags, less, value);
      var i := r.base + r.size - 1;
      PopulationUpdate(Filled(flags, less, value), i, value);
      assert Filled(flags, r, value) == Filled(flags, less, value)[i := value];
    }
  }

  class Bits {
    const data: array<bv8>

    constructor (size: nat, value: bool)
      ensures fresh(data) && data.Length == size && |Flags()| == 8 * size
      ensures forall i | 0 <= i < 8 * size :: Flags()[i] == value
    {
      data := new bv8[size](_ => if value then 0xff else 0);
    }

    ghost function Flags(): (f: Flags)
      reads data
      ensures |f| == 8 * data.Length
    {
      Unpack(data[..])
    }

    /** bits_get. */
    method Get(i: nat) returns (b: bool)
      requires i < 8 * data.Length
      ensures b == Flags()[i]
    {
      b := data[i / 8] & Mask(i % 8) != 0;
    }

    /** bits_set. */
    method Set(i: nat, value: bool)
      requires i < 8 * data.Length
      modifies data
      ensures Flags() == old(Flags())[i := value]
    {
      UnpackUpdate(data[..], i, value);
      hide Unpack, Bit, Mask;
      var byte := data[i / 8];
      if value {
        data[i / 8] := byte | Mask(i % 8);
      } else {
        data[i / 8] := byte & !Mask(i % 8);
      }
      assert data[..] == old(data[..])[i / 8 := Write(byte, i % 8, value)];
    }

    /** bits_set_range; returns how many bits changed. */
    method SetRange(r: Range, value: bool) returns (count: nat)
      requires r.base + r.size <= 8 * data.Length
      modifies data
      ensures Flags() == Filled(old(Flags()), r, value)
      ensures Population(Flags()) == if value then Population(old(Flags())) + count
        else Population(old(Flags())) - count
      ensures old(All(Flags(), r, !value)) ==> count == r.size
    {
      ghost var f0 := Flags();
      FilledNone(f0, r.base, value);
      hide Unpack, Filled, Population;
      count := 0;
      var i := 0;
      while i < r.size
        invariant 0 <= i <= r.size && Flags() == Filled(f0, Range(r.base, i), value)
        invariant Population(Flags()) == if value then Population(f0) + count else Population(f0) - count
        invariant All(f0, r, !value) ==> count == i
      {
        ghost var f := Flags();
        FilledOn(f0, r.base, i, value);
        var b := Get(r.base + i);
        if b != value {
          PopulationUpdate(f, r.base + i, value);
          Set(r.base + i, value);
          count := count + 1;
        }
        assert Flags() == f[r.base + i := value];
        i := i + 1;
      }
    }

    /** bits_find_free: the lowest free run from `start` on or, with `upper`, the highest one ending at `start` or
        before and leaving out bit 0; an empty range if there is none. */
    method FindFree(start: nat, size: nat, upper: bool) returns (r: Range)
      ensures r.size == 0 || r.size == size
      ensures r.size > 0 ==> Candidate(Flags(), start, size, upper, r.base)
      ensures size > 0 ==> forall b: nat | Candidate(Flags(), start, size, upper, b) ::
        r.size > 0 && (if upper then b <= r.base else r.base <= b)
    {
      if upper {
        r := FindDown(start, size);
      } else {
        r := FindUp(start, size);
      }
    }

    method FindUp(start: nat, size: nat) returns (r: Range)
      ensures r.size == 0 || r.size == size
      ensures r.size > 0 ==> Candidate(Flags(), start, size, false, r.base)
      ensures size > 0 ==> forall b: nat | Candidate(Flags(), start, size, false, b) :: r.size > 0 && r.base <= b
    {
      hide Unpack;
      ghost var f := Flags();
      var n: nat := 8 * data.Length;
      var from: nat, len: nat := 0, 0;
      var i: nat := if start < n then start else n;
      ghost var s: nat := i;
      while i < n
        invariant s <= i <= n && len <= i - s && (size > 0 ==> len < size) && (len > 0 ==> from == i - len)
        invariant RunUp(f, s, i, len) && (size > 0 ==> NoneUp(f, s, i, size))
      {
        var bit := Get(i);
        if !bit {
          if len == 0 {
            from := i;
          }
          len := len + 1;
        } else {
          len, from := 0, 0;
        }
        i := i + 1;
        if size == len {
          return Range(from, len);
        }
        if size > 0 { UpOn(f, s, i, len, size); }
      }
      return Range(0, 0);
    }

    method FindDown(start: nat, size: nat) returns (r: Range)
      ensures r.size == 0 || r.size == size
      ensures r.size > 0 ==> Candidate(Flags(), start, size, true, r.base)
      ensures size > 0 ==> forall b: nat | Candidate(Flags(), start, size, true, b) :: r.size > 0 && b <= r.base
    {
      hide Unpack;
      ghost var f := Flags();
      var n: nat := 8 * data.Length;
      var from: nat, len: nat := 0, 0;
      var i: nat := if start < n then start else n;
      ghost var s: nat := i;
      while i > 0
        invariant i <= s <= n && len <= s - i && (size > 0 ==> len < size) && (len > 0 ==> from == i + 1)
        invariant RunDown(f, s, i, len) && (size > 0 ==> NoneDown(f, s, i, size))
      {
        // The bit after the last counts as used.
        var bit := true;
        if i < n {
          bit := Get(i);
        }
        if !bit {
          from := i;
          len := len + 1;
        } else {
          len, from := 0, 0;
        }
        i := i - 1;
        if size == len {
          return Range(from, len);
        }
        if size > 0 { DownOn(f, s, i, len, size); }
      }
      return Range(0, 0);
    }
  }

  /** A free run that a search from `start` looks at. */
  ghost predicate Candidate(flags: Flags, start: nat, size: nat, upper: bool, b: nat) {
    Free(flags, b, size) && if upper then 1 <= b && b + size <= start + 1 else start <= b
  }

  /** The bits of [s, i) end in a free run of exactly len. */
  ghost predicate RunUp(f: Flags, s: nat, i: nat, len: nat) {
    s <= i <= |f| && len <= i - s && Free(f, i - len, len) && (len < i - s ==> f[i - len - 1])
  }

  ghost predicate NoneUp(f: Flags, s: nat, i: nat, size: nat) {
    forall b: nat | s <= b && b + size <= i :: !Free(f, b, size)
  }

  lemma UpOn(f: Flags, s: nat, i: nat, len: nat, size: nat)
    requires i > s && RunUp(f, s, i, len) && len < size && NoneUp(f, s, i - 1, size)
    ensures NoneUp(f, s, i, size)
  {
    forall b: nat | s <= b && b + size <= i ensures !Free(f, b, size) {
      if b + size == i {
        assert f[i - len - 1];
      }
    }
  }

  /** The bits of (i, s] begin with a free run of exactly len; bit |f| counts as used. */
  ghost predicate RunDown(f: Flags, s: nat, i: nat, len: nat) {
    i <= s <= |f| && len <= s - i && Free(f, if len == 0 then 0 else i + 1, len)
      && (len < s - i && i + 1 + len < |f| ==> f[i + 1 + len])
  }

  ghost predicate NoneDown(f: Flags, s: nat, i: nat, size: nat) {
    forall b: nat | i < b && b + size <= s + 1 :: !Free(f, b, size)
  }

  lemma DownOn(f: Flags, s: nat, i: nat, len: nat, size: nat)
    requires i < s && RunDown(f, s, i, len) && len < size && NoneDown(f, s, i + 1, size)
    ensures NoneDown(f, s, i, size)
  {
    forall b: nat | i < b && b + size <= s + 1 ensures !Free(f, b, size) {
      if b == i + 1 && b + size <= |f| {
        assert f[i + 1 + len];
      }
    }
  }
}
