/** The sliding window (brutal-io/window.c): a buffer of three capacities that flushes one capacity at a time. */
module Window {
  import opened Bits

  const CAPACITY_FACTOR: nat := 3
  const THRESHOLD_FACTOR: nat := 2

  class IoWindow {
    const data: array<Byte>
    const capacity: nat
    var used: nat
    /** What the underlying writer has received. */
    var out: seq<Byte>

    ghost predicate Valid()
      reads this
    {
      && capacity > 0
      && data.Length == CAPACITY_FACTOR * capacity
      && used <= THRESHOLD_FACTOR * capacity
    }

    /** Once something was flushed, more than `capacity` bytes are still at hand. */
    ghost predicate Recent()
      reads this
    {
      out == [] || used > capacity
    }

    /** All bytes ever written. */
    ghost function Total(): seq<Byte>
      requires Valid()
      reads this, data
    {
      out + data[..used]
    }

    constructor (capacity: nat)
      requires capacity > 0
      ensures Valid() && Recent() && Total() == [] && this.capacity == capacity && fresh(data)
    {
      data := new Byte[CAPACITY_FACTOR * capacity](i => 0);
      this.capacity := capacity;
      used, out := 0, [];
    }

    /** mem_move to the front of the buffer. */
    static method MoveDown(data: array<Byte>, size: nat, n: nat)
      requires size + n <= data.Length
      modifies data
      ensures data[..n] == old(data[size..size + n])
    {
      ghost var all := data[..];
      var i: nat := 0;
      while i < n
        invariant i <= n && |all| == data.Length
        invariant forall j: nat | j < i :: data[j] == all[j + size]
        invariant forall j: nat | i <= j < |all| :: data[j] == all[j]
      {
        data[i] := data[i + size];
        i := i + 1;
      }
      assert data[..n] == all[size..size + n];
    }

    static lemma Regroup(a: seq<Byte>, b: seq<Byte>, c: seq<Byte>)
      ensures a + b + c == a + (b + c)
    {
    }

    /** io_window_flush_chunk: the oldest bytes go out, the rest moves to the front. */
    method FlushChunk()
      requires capacity > 0 && data.Length == CAPACITY_FACTOR * capacity && used <= data.Length
      modifies this, data
      ensures used == old(used) - (if old(used) < capacity then old(used) else capacity)
      ensures out + data[..used] == old(out + data[..used])
    {
      var size := if used < capacity then used else capacity;
      ghost var all, before := data[..used], out;
      ghost var head, rest := data[..size], data[size..used];
      assert all == head + rest;
      out := out + data[..size];
      used := used - size;
      MoveDown(data, size, used);
      Regroup(before, head, rest);
    }

    /** io_window_flush_all. */
    method FlushAll()
      requires Valid()
      modifies this
      ensures Valid() && out == old(Total()) && used == 0
    {
      out := out + data[..used];
      used := 0;
    }

    /** io_window_write_impl: writes what fits; nothing is cut off up to one capacity. */
    method Write(bytes: seq<Byte>) returns (n: nat)
      requires Valid()
      modifies this, data
      ensures Valid() && (old(Recent()) ==> Recent())
      ensures n <= |bytes| && (|bytes| <= capacity ==> n == |bytes|)
      ensures Total() == old(Total()) + bytes[..n]
    {
      var room := capacity * CAPACITY_FACTOR - used;
      n := if room < |bytes| then room else |bytes|;
      ghost var before := data[..used];
      forall i | used <= i < used + n {
        data[i] := bytes[i - used];
      }
      assert data[..used + n] == before + bytes[..n];
      assert out + (before + bytes[..n]) == out + before + bytes[..n];
      used := used + n;
      if used > capacity * THRESHOLD_FACTOR {
        FlushChunk();
      }
    }

    /** io_window_peek_from_back. */
    method PeekFromBack(offset: nat) returns (b: Byte)
      requires Valid() && 1 <= offset <= used
      ensures offset <= |Total()| && b == Total()[|Total()| - offset]
    {
      b := data[used - offset];
    }

    /** Every distance up to the capacity that stays inside the output can be looked up. */
    lemma InReach(offset: nat)
      requires Valid() && Recent() && offset <= capacity && offset <= |Total()|
      ensures offset <= used
    {
    }
  }
}
