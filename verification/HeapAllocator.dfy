/** The heap allocator itself (brutal-alloc/heap.c). Headers live in address-keyed maps and are updated field
    by field as the C code does; `mem` is the byte content of the address space, and writing a header stamps
    its bytes, so that a header written over somebody's payload would be visible. */
module HeapAllocator {
  import opened HeapLayout

  /** Content of a byte occupied by a header. */
  const HEADER_BYTE: int := -1

  type Memory = nat -> int

  function Stamp(mem: Memory, p: nat, n: nat): Memory {
    (a: nat) => if p <= a < p + n then HEADER_BYTE else mem(a)
  }

  /** mem_cpy between disjoint ranges. */
  function Copy(mem: Memory, dst: nat, src: nat, n: nat): Memory {
    (a: nat) => if dst <= a < dst + n then mem(src + (a - dst)) else mem(a)
  }

  function PayloadSize(reqSize: nat): (r: nat)
    ensures r >= reqSize && r > 0 && r % 64 == 0
    ensures r < (if reqSize == 0 then 1 else reqSize) + 64
  {
    AlignUp(if reqSize == 0 then 1 else reqSize)
  }

  /** Conversion of a size_t difference to a 32-bit int. */
  function ToInt32(n: int): (r: int)
    ensures -0x8000_0000 <= r < 0x8000_0000
    ensures -0x8000_0000 <= n < 0x8000_0000 ==> r == n
    ensures (n - r) % 0x1_0000_0000 == 0
  {
    (n + 0x8000_0000) % 0x1_0000_0000 - 0x8000_0000
  }

  /** The allocator's fields together with the shape its pointers describe. */
  datatype Heap = Heap(root: nat, majors: Majors, minors: Minors, mem: Memory,
                       chain: seq<nat>, lists: map<nat, seq<nat>>)

  ghost predicate Stamped(mem: Memory, p: nat, n: nat) {
    forall a: nat | p <= a < p + n :: mem(a) == HEADER_BYTE
  }

  /** Every header still holds what the allocator wrote: no payload store and no copy ever hit one. */
  ghost predicate HeadersIntact(mem: Memory, majors: Majors, minors: Minors) {
    && (forall m | m in majors :: Stamped(mem, m, MAJOR_HEADER))
    && (forall p | p in minors :: Stamped(mem, p, MINOR_HEADER))
  }

  /** Holds inside a call too: a block just obtained may still be empty. */
  ghost predicate Consistent(h: Heap) {
    && HeapOk(h.majors, h.minors, h.root, h.chain, h.lists)
    && HeadersIntact(h.mem, h.majors, h.minors)
  }

  ghost predicate NoEmptyBlock(h: Heap) {
    forall m | m in h.lists :: h.lists[m] != []
  }

  /** Holds between calls. */
  ghost predicate HeapValid(h: Heap) {
    Consistent(h) && NoEmptyBlock(h)
  }

  /** The payload behind header p reads the same in both memories. */
  ghost predicate SamePayload(mem: Memory, mem': Memory, p: nat, n: nat) {
    forall a: nat | p + MINOR_HEADER <= a < p + MINOR_HEADER + n :: mem(a) == mem'(a)
  }

  ghost predicate Kept(h: Heap, h': Heap, p: nat) {
    && p in h.minors && p in h'.minors
    && h'.minors[p].size == h.minors[p].size
    && h'.minors[p].reqSize == h.minors[p].reqSize
    && h'.minors[p].block == h.minors[p].block
    && SamePayload(h.mem, h'.mem, p, h.minors[p].size)
  }

  /** Blocks in `keep` are still live, with the same size and the same bytes. */
  ghost predicate Untouched(h: Heap, h': Heap, keep: set<nat>) {
    forall p | p in keep :: Kept(h, h', p)
  }

  /** What every placement case does to the state: a minor of `size` bytes appears at p, in gap k of block m. */
  ghost predicate Placed(h: Heap, h': Heap, m: nat, k: nat, p: nat, size: nat) {
    && m in h.majors && m in h.lists && k <= |h.lists[m]|
    && var l := h.lists[m];
    && h'.majors == h.majors[m := SplicedMajor(h.majors[m], At(l, k - 1), p, size)]
    && h'.minors == Spliced(h.minors, At(l, k - 1), At(l, k), p, size, m)
    && h'.lists == h.lists[m := InsertAt(l, k, p)]
    && h'.chain == h.chain && h'.root == h.root
    && h'.mem == Stamp(h.mem, p, MINOR_HEADER)
  }

  /** p is a new live block of `size` bytes inside major m, and nobody else was disturbed. */
  ghost predicate Allocated(h: Heap, h': Heap, p: nat, size: nat) {
    && p != NULL && p !in h.minors
    && h'.minors.Keys == h.minors.Keys + {p}
    && h'.minors[p].size == size && h'.minors[p].reqSize == size
    && Untouched(h, h', h.minors.Keys)
  }

  /** A placement inside a gap keeps the heap consistent and touches nobody else. */
  lemma PlacedIsSafe(h: Heap, h': Heap, m: nat, k: nat, p: nat, size: nat)
    requires Consistent(h) && Placed(h, h', m, k, p, size)
    requires GapStart(m, h.minors, h.lists[m], k) <= p
    requires p + size + MINOR_HEADER <= GapEnd(m, h.majors[m].size, h.lists[m], k)
    ensures Consistent(h') && Allocated(h, h', p, size)
  {
    SpliceKeepsHeap(h.majors, h.minors, h.root, h.chain, h.lists, m, k, p, size);
    forall q | q in h.minors ensures Kept(h, h', q) && Stamped(h'.mem, q, MINOR_HEADER) {
      GapIsFree(h.majors, h.minors, h.lists, m, k, p, size + MINOR_HEADER, q);
      assert Stamped(h.mem, q, MINOR_HEADER);
    }
    assert BlockOk(m, h.majors[m], h.minors, h.lists[m]);
    GapInside(m, h.majors[m].size, h.minors, h.lists[m], k);
    forall q | q in h.majors ensures Stamped(h'.mem, q, MAJOR_HEADER) {
      assert Stamped(h.mem, q, MAJOR_HEADER);
      HeaderOutsideGap(h.majors, h.minors, h.lists, m, p, size + MINOR_HEADER, q);
    }
  }

  lemma FirstOfList(m: nat, major: Major, minors: Minors, l: seq<nat>)
    requires BlockOk(m, major, minors, l)
    ensures major.first == NULL ==> l == []
    ensures major.first != NULL ==> l != [] && l[0] == major.first && l[0] in minors
  {
    if l != [] { assert MinorLinked(m, major.size, minors, l, 0); }
  }

  lemma HeaderOutsideGap(majors: Majors, minors: Minors, lists: map<nat, seq<nat>>, m: nat, p: nat, n: nat, q: nat)
    requires BlocksOk(majors, minors, lists) && MajorsApart(majors) && m in majors && q in majors
    requires m + MAJOR_HEADER <= p && p + n <= m + majors[m].size
    ensures Apart(p, n, q, MAJOR_HEADER)
  {
    assert BlockOk(q, majors[q], minors, lists[q]);
    if q != m { assert Apart(m, majors[m].size, q, majors[q].size); }
  }

  lemma GapIsUnused(majors: Majors, minors: Minors, lists: map<nat, seq<nat>>, m: nat, k: nat, size: nat)
    requires BlocksOk(majors, minors, lists) && MajorsApart(majors)
    requires m in majors && k <= |lists[m]| && Fits(m, majors[m].size, minors, lists[m], k, size)
    ensures GapStart(m, minors, lists[m], k) !in minors
  {
    var p := GapStart(m, minors, lists[m], k);
    if p in minors {
      GapIsFree(majors, minors, lists, m, k, p, size + MINOR_HEADER, p);
    }
  }

  /** The heap after linking a fresh empty block at the end of the chain. */
  ghost predicate Extended(h: Heap, h': Heap, g: nat, bytes: nat) {
    && bytes % PAGE == 0
    && h'.majors == Grown(h.majors, At(h.chain, |h.chain| - 1), g, bytes / PAGE)
    && h'.minors == h.minors
    && h'.root == (if h.chain == [] then g else h.root)

    && h'.mem == Stamp(h.mem, g, MAJOR_HEADER)
    && h'.chain == h.chain + [g]
    && h'.lists == h.lists[g := []]
  }

  /** The system's answer: page-aligned memory that is ours alone. */
  predicate GrantOk(majors: Majors, g: nat, bytes: nat) {
    g % PAGE == 0 && Grantable(majors, g, bytes)
  }

  lemma ExtendedIsSafe(h: Heap, h': Heap, g: nat, bytes: nat)
    requires Consistent(h) && Extended(h, h', g, bytes) && GrantOk(h.majors, g, bytes) && MAJOR_HEADER <= bytes
    ensures g !in h.majors
    ensures Consistent(h') && h'.lists.Keys == h.lists.Keys + {g}
    ensures Untouched(h, h', h.minors.Keys)
  {
    GrantIsFresh(h, g, bytes);
    assert bytes / PAGE * PAGE == bytes;
    GrowKeepsHeap(h.majors, h.minors, h.root, h.chain, h.lists, g, bytes / PAGE);
    forall q | q in h.minors ensures Kept(h, h', q) && Stamped(h'.mem, q, MINOR_HEADER) {
      Inside(h.majors, h.minors, h.lists, q);
      assert Apart(g, bytes, h.minors[q].block, h.majors[h.minors[q].block].size);
      assert Stamped(h.mem, q, MINOR_HEADER);
    }
    forall m | m in h'.majors ensures Stamped(h'.mem, m, MAJOR_HEADER) {
      if m != g {
        assert Stamped(h.mem, m, MAJOR_HEADER);
        assert BlockOk(m, h.majors[m], h.minors, h.lists[m]);
        assert Apart(g, bytes, m, h.majors[m].size);
      }
    }
  }

  lemma SplicedFront(minors: Minors, first: nat, p: nat, size: nat, m: nat)
    requires first in minors && p !in minors && NULL !in minors
    ensures minors[first := minors[first].(prev := p)][p := Minor(size, size, NULL, first, m)]
      == Spliced(minors, NULL, first, p, size, m)
  {
  }

  lemma SplicedBetween(minors: Minors, prev: nat, next: nat, p: nat, size: nat, m: nat)
    requires prev in minors && next in minors && prev != next && p !in minors
    ensures var a := minors[p := Minor(size, size, prev, next, m)];
            var b := a[next := a[next].(prev := p)];
            b[prev := b[prev].(next := p)] == Spliced(minors, prev, next, p, size, m)
  {
  }

  lemma SplicedBack(minors: Minors, last: nat, p: nat, size: nat, m: nat)
    requires last in minors && p !in minors && NULL !in minors
    ensures minors[last := minors[last].(next := p)][p := Minor(size, size, last, NULL, m)]
         == Spliced(minors, last, NULL, p, size, m)
  {
  }

  lemma GrownIs(majors: Majors, last: nat, g: nat, pages: nat)
    requires g !in majors && NULL !in majors && (last != NULL ==> last in majors)
    ensures var a := majors[g := Major(pages, pages * PAGE, MAJOR_HEADER, NULL, NULL, NULL)];
            && (last == NULL ==> Grown(majors, last, g, pages) == a)
            && (last != NULL ==>
                  var b := a[last := a[last].(next := g)];
                  Grown(majors, last, g, pages) == b[g := b[g].(prev := last)])
  {
  }

  class HeapAlloc {
    const nodeSize: nat
    var root: nat
    var best: nat
    var majors: Majors
    var minors: Minors
    var mem: Memory

    // The shape described by the pointers.
    ghost var chain: seq<nat>
    ghost var lists: map<nat, seq<nat>>

    ghost function State(): Heap
      reads this
    {
      Heap(root, majors, minors, mem, chain, lists)
    }

    /** Holds between calls. */
    ghost predicate Valid()
      reads this
    {
      HeapValid(State()) && (best == NULL || best in majors)
    }

    constructor (nodeSize: nat)
      ensures Valid() && chain == [] && minors == map[] && this.nodeSize == nodeSize
    {
      this.nodeSize := nodeSize;
      root, best, majors, minors := NULL, NULL, map[], map[];
      mem := (a: nat) => 0;
      chain, lists := [], map[];
    }

    // ----- Placement -----------------------------------------------------------------------------

    /** CASE 2: a block without minors. */
    method PlaceAlone(maj: nat, size: nat) returns (p: nat)
      requires maj in majors && maj in lists && lists[maj] == [] && NULL !in minors
      modifies `majors, `minors, `mem, `lists
      ensures p == maj + MAJOR_HEADER && Placed(old(State()), State(), maj, 0, p, size)
    {
      p := maj + MAJOR_HEADER;
      mem := Stamp(mem, p, MINOR_HEADER);
      minors := minors[p := Minor(size, size, NULL, NULL, maj)];
      majors := majors[maj := majors[maj].(first := p, usage := majors[maj].usage + size + MINOR_HEADER)];
      assert minors == Spliced(old(minors), NULL, NULL, p, size, maj);
      lists := lists[maj := InsertAt(lists[maj], 0, p)];
    }

    /** CASE 3: in front of the first minor. */
    method PlaceFront(maj: nat, size: nat) returns (p: nat)
      requires maj in majors && maj in lists && lists[maj] != [] && NULL !in minors
      requires majors[maj].first == lists[maj][0] && majors[maj].first in minors && maj + MAJOR_HEADER !in minors
      modifies `majors, `minors, `mem, `lists
      ensures p == maj + MAJOR_HEADER && Placed(old(State()), State(), maj, 0, p, size)
    {
      hide Spliced, InsertAt, Stamp;
      p := maj + MAJOR_HEADER;
      var first := majors[maj].first;
      SplicedFront(minors, first, p, size, maj);
      minors := minors[first := minors[first].(prev := p)];
      mem := Stamp(mem, p, MINOR_HEADER);
      minors := minors[p := Minor(size, size, NULL, first, maj)];
      majors := majors[maj := majors[maj].(first := p, usage := majors[maj].usage + size + MINOR_HEADER)];
      lists := lists[maj := InsertAt(lists[maj], 0, p)];
    }

    /** CASE 4.1: behind the last minor. */
    method PlaceBack(maj: nat, min: nat, size: nat, ghost j: nat) returns (p: nat)
      requires maj in majors && maj in lists && j + 1 == |lists[maj]| && lists[maj][j] == min
      requires min in minors && min != NULL && NULL !in minors && min + MINOR_HEADER + minors[min].size !in minors
      modifies `majors, `minors, `mem, `lists
      ensures p == min + MINOR_HEADER + old(minors)[min].size
      ensures Placed(old(State()), State(), maj, j + 1, p, size)
    {
      hide Spliced, InsertAt, Stamp;
      p := min + MINOR_HEADER + minors[min].size;
      SplicedBack(minors, min, p, size, maj);
      minors := minors[min := minors[min].(next := p)];
      mem := Stamp(mem, p, MINOR_HEADER);
      minors := minors[p := Minor(size, size, min, NULL, maj)];
      majors := majors[maj := majors[maj].(usage := majors[maj].usage + size + MINOR_HEADER)];
      lists := lists[maj := InsertAt(lists[maj], j + 1, p)];
    }

    /** CASE 4.2: between two minors. */
    method PlaceBetween(maj: nat, min: nat, size: nat, ghost j: nat) returns (p: nat)
      requires maj in majors && maj in lists && j + 1 < |lists[maj]| && lists[maj][j] == min
      requires min in minors && min != NULL && NULL !in minors && min + MINOR_HEADER + minors[min].size !in minors
      requires minors[min].next == lists[maj][j + 1] && minors[min].next in minors && minors[min].next != min
      modifies `majors, `minors, `mem, `lists
      ensures p == min + MINOR_HEADER + old(minors)[min].size
      ensures Placed(old(State()), State(), maj, j + 1, p, size)
    {
      hide Spliced, InsertAt, Stamp;
      p := min + MINOR_HEADER + minors[min].size;
      var next := minors[min].next;
      SplicedBetween(minors, min, next, p, size, maj);
      mem := Stamp(mem, p, MINOR_HEADER);
      minors := minors[p := Minor(size, size, min, next, maj)];
      minors := minors[next := minors[next].(prev := p)];
      minors := minors[min := minors[min].(next := p)];
      majors := majors[maj := majors[maj].(usage := majors[maj].usage + size + MINOR_HEADER)];
      lists := lists[maj := InsertAt(lists[maj], j + 1, p)];
    }

    /** CASE 4: walk the minors of the block. */
    method ScanFrom(maj: nat, size: nat) returns (p: nat, ghost k: nat)
      requires Consistent(State()) && maj in majors && majors[maj].first != NULL
      requires !Fits(maj, majors[maj].size, minors, lists[maj], 0, size)
      modifies `majors, `minors, `mem, `lists
      ensures p == NULL ==> State() == old(State())
      ensures p == NULL ==> NoGap(maj, majors[maj].size, minors, lists[maj], size)
      ensures p != NULL ==> PlacedInGap(old(State()), State(), maj, k, p, size)
    {
      ghost var l := lists[maj];
      assert BlockOk(maj, majors[maj], minors, l);
      FirstOfList(maj, majors[maj], minors, l);
      NullNotMinor(majors, minors, lists);
      var min := majors[maj].first;
      ghost var j: nat := 0;
      while min != NULL
        invariant State() == old(State())
        invariant j <= |l| && min == At(l, j) && (j < |l| ==> min != NULL && min in minors)
        invariant forall g: nat | g <= j && g <= |l| :: !Fits(maj, majors[maj].size, minors, l, g, size)
        decreases |l| - j
      {
        assert MinorLinked(maj, majors[maj].size, minors, l, j);
        if minors[min].next == NULL {
          assert j + 1 == |l| by { NextIsLast(maj, majors[maj].size, minors, l, j); }
          if maj + majors[maj].size - min - MINOR_HEADER - minors[min].size >= size + MINOR_HEADER {
            assert Fits(maj, majors[maj].size, minors, l, j + 1, size);
            GapIsUnused(majors, minors, lists, maj, j + 1, size);
            p := PlaceBack(maj, min, size, j);
            k := j + 1;
            return;
          }
        }
        if minors[min].next != NULL {
          assert MinorLinked(maj, majors[maj].size, minors, l, j + 1);
          if minors[min].next - min - MINOR_HEADER - minors[min].size >= size + MINOR_HEADER {
            assert Fits(maj, majors[maj].size, minors, l, j + 1, size);
            GapIsUnused(majors, minors, lists, maj, j + 1, size);
            p := PlaceBetween(maj, min, size, j);
            k := j + 1;
            return;
          }
        }
        min := minors[min].next;
        j := j + 1;
        if j < |l| { assert MinorLinked(maj, majors[maj].size, minors, l, j); }
      }
      p, k := NULL, 0;
    }

    /** Cases 2 to 4 on one block: place in the first fitting gap, or find that there is none. */
    method Scan(maj: nat, size: nat) returns (p: nat, ghost k: nat)
      requires Consistent(State()) && maj in majors
      requires majors[maj].size - majors[maj].usage >= size + MINOR_HEADER
      modifies `majors, `minors, `mem, `lists
      ensures Consistent(State()) && majors.Keys == old(majors.Keys)
      ensures p == NULL ==> State() == old(State())
      ensures p == NULL ==> NoGap(maj, majors[maj].size, minors, lists[maj], size)
      ensures p != NULL ==>
        PlacedInGap(old(State()), State(), maj, k, p, size) && Allocated(old(State()), State(), p, size)
    {
      ghost var l := lists[maj];
      assert BlockOk(maj, majors[maj], minors, l);
      FirstOfList(maj, majors[maj], minors, l);
      NullNotMinor(majors, minors, lists);
      k := 0;
      if majors[maj].first == NULL {
        p := PlaceAlone(maj, size);
      } else if majors[maj].first - maj - MAJOR_HEADER >= size + MINOR_HEADER {
        assert Fits(maj, majors[maj].size, minors, l, 0, size);
        GapIsUnused(majors, minors, lists, maj, 0, size);
        p := PlaceFront(maj, size);
      } else {
        p, k := ScanFrom(maj, size);
      }
      if p != NULL { PlacedIsSafe(old(State()), State(), maj, k, p, size); }
    }

    // ----- Acquire -------------------------------------------------------------------------------

    /** major_block_create, linked behind `last`, or as the root of an empty chain. */
    method Grow(last: nat, bytes: nat, g: nat)
      requires last == At(chain, |chain| - 1) && (chain != [] ==> last in majors)
      requires g !in majors && bytes % PAGE == 0 && NULL !in majors
      modifies `root, `majors, `mem, `chain, `lists
      ensures Extended(old(State()), State(), g, bytes)
      ensures chain == old(chain) + [g] && majors.Keys == old(majors.Keys) + {g}
      ensures if last == NULL then root == g else majors[last].next == g
    {
      hide Grown, Stamp;
      GrownIs(majors, last, g, bytes / PAGE);
      mem := Stamp(mem, g, MAJOR_HEADER);
      majors := majors[g := Major(bytes / PAGE, bytes / PAGE * PAGE, MAJOR_HEADER, NULL, NULL, NULL)];
      if last == NULL {
        root := g;
      } else {
        majors := majors[last := majors[last].(next := g)];
        majors := majors[g := majors[g].(prev := last)];
      }
      chain, lists := chain + [g], lists[g := []];
    }

    /** Growth during a search: every block has been looked at and none fits. */
    method GrowForRequest(last: nat, size: nat, bytes: nat, g: nat, ghost h0: Heap) returns (next: nat)
      requires State() == h0 && Consistent(h0) && last in majors && |chain| > 0 && last == chain[|chain| - 1]
      requires GrantOk(h0.majors, g, bytes) && g !in majors
      requires bytes % PAGE == 0 && bytes >= size + MAJOR_HEADER + MINOR_HEADER
      requires NoGapBefore(h0, |chain|, size)
      modifies `root, `majors, `mem, `chain, `lists
      ensures next == g && chain == h0.chain + [g] && g in majors && h0.majors.Keys <= majors.Keys
      ensures Consistent(State()) && Extended(h0, State(), g, bytes) && NoFit(h0, size)
      ensures majors[g].size - majors[g].usage >= size + MINOR_HEADER
      ensures lists[g] == [] && Fits(g, majors[g].size, minors, lists[g], 0, size)
    {
      hide Consistent, Extended, NoFit, NoGapBefore;
      NothingLeft(h0, size);
      RootFacts(h0);
      Grow(last, bytes, g);
      ExtendedIsSafe(h0, State(), g, bytes);
      FreshHasRoom(h0, State(), g, bytes, size);
      next := majors[last].next;
    }

    /** The search loop of heap_alloc_acquire, from block `start` on. `h0` is the state before the call, `grown`
        tells that the chain was empty and `start` is a block obtained for this request. */
    method Search(start: nat, bestbet: bool, least: int, size: nat, bytes: nat, grant: nat, grown: bool,
                  ghost h0: Heap, ghost startIdx: nat)
      returns (p: nat, grew: bool)
      requires Consistent(State()) && (best == NULL || best in majors)
      requires HeapValid(h0) && GrantOk(h0.majors, grant, bytes) && grant !in h0.majors
      requires bytes % PAGE == 0 && bytes >= size + MAJOR_HEADER + MINOR_HEADER
      requires startIdx < |chain| && chain[startIdx] == start && (!bestbet ==> startIdx == 0)
      requires !grown ==> State() == h0
      requires grown ==> Extended(h0, State(), grant, bytes) && start == grant && !bestbet && NoFit(h0, size)
      modifies `root, `best, `majors, `minors, `mem, `chain, `lists
      ensures HeapValid(State()) && (best == NULL || best in majors)
      ensures Allocated(h0, State(), p, size)
      ensures grew <==> NoFit(h0, size)
      ensures chain == h0.chain + (if grew then [grant] else [])
    {
      hide Consistent, GrantOk, Extended, NoFit, NoGapBefore, Allocated, PlacedInGap, HeapValid, NoGap;
      var maj, started, bestSize := start, bestbet, least;
      ghost var idx: nat, k: nat := startIdx, 0;
      grew := grown;
      NothingBefore(h0, size);
      while true
        invariant Consistent(State()) && (best == NULL || best in majors)
        invariant idx < |chain| && chain[idx] == maj
        invariant !grew ==> State() == h0
        invariant !grew && !started ==> NoGapBefore(h0, idx, size)
        invariant grew ==> Extended(h0, State(), grant, bytes) && maj == grant && !started && NoFit(h0, size)
        decreases if grew then 0 else 1, if started then 1 else 0, |chain| - idx
      {
        AtNode(State(), idx, size);
        var diff := majors[maj].size - majors[maj].usage;
        if bestSize < diff {
          best := maj;
          bestSize := diff;
        }
        FreshHasRoom(h0, State(), grant, bytes, size);
        if diff < size + MINOR_HEADER {
          // CASE 1: not enough bytes left, whatever the layout.
          OneMore(h0, idx, size);
          if majors[maj].next != NULL {
            maj, idx := majors[maj].next, idx + 1;
            continue;
          }
          if started {
            RootFacts(State());
            maj, idx, started := root, 0, false;
            continue;
          }
          maj := GrowForRequest(maj, size, bytes, grant, h0);
          idx, grew := idx + 1, true;
        }
        ghost var h1 := State();
        p, k := Scan(maj, size);
        if p != NULL {
          Finished(h0, h1, State(), maj, k, p, size, grew, grant, bytes);
          return;
        }
        // CASE 5: enough bytes but no gap.
        OneMore(h0, idx, size);
        if majors[maj].next != NULL {
          maj, idx := majors[maj].next, idx + 1;
        } else if started {
          RootFacts(State());
          maj, idx, started := root, 0, false;
        } else {
          maj := GrowForRequest(maj, size, bytes, grant, h0);
          idx, grew := idx + 1, true;
        }
      }
    }

    /** heap_alloc_acquire. `grant` is the address the system hands out if it is asked for a new block. */
    method Acquire(reqSize: nat, grant: nat) returns (ptr: nat, grew: bool)
      requires Valid()
      requires GrantOk(majors, grant, MajorBytes(PayloadSize(reqSize), nodeSize))
      modifies this
      ensures Valid()
      ensures ptr >= MINOR_HEADER && Allocated(old(State()), State(), ptr - MINOR_HEADER, PayloadSize(reqSize))
      ensures grew <==> NoFit(old(State()), PayloadSize(reqSize))
      ensures chain == old(chain) + (if grew then [grant] else [])
    {
      hide Consistent, GrantOk, Extended, NoFit, NoGapBefore, Allocated, NoEmptyBlock, AlignUp, MajorBytes, PayloadSize;
      var size := PayloadSize(reqSize);
      var bytes := MajorBytes(size, nodeSize);
      ghost var h0 := State();
      RootFacts(h0);
      GrantIsFresh(h0, grant, bytes);
      grew := false;
      if root == NULL {
        Grow(NULL, bytes, grant);
        ExtendedIsSafe(h0, State(), grant, bytes);
        EmptyHasNoFit(h0, size);
        FreshHasRoom(h0, State(), grant, bytes, size);
        grew := true;
      }
      RootFacts(State());
      var maj, started, bestSize := root, false, 0;
      ghost var idx: nat := 0;
      if best != NULL {
        bestSize := majors[best].size - majors[best].usage;
        if bestSize > size + MINOR_HEADER {
          maj, started := best, true;
          idx := IndexOf(State(), best);
        }
      }
      var p;
      p, grew := Search(maj, started, bestSize, size, bytes, grant, grew, h0, idx);
      ptr := p + MINOR_HEADER;
    }

    // ----- Release -------------------------------------------------------------------------------

    /** Unlinks a live minor from its block. */
    method Unlink(min: nat, ghost k: nat)
      requires min in minors && minors[min].block in majors && minors[min].block in lists && NULL !in minors
      requires k < |lists[minors[min].block]| && lists[minors[min].block][k] == min
      requires minors[min].prev != NULL ==> minors[min].prev in minors && minors[min].prev != min
      requires minors[min].next != NULL ==> minors[min].next in minors && minors[min].next != min
      requires minors[min].next != NULL ==> minors[min].next != minors[min].prev
      modifies `majors, `minors, `lists
      ensures var m := old(minors)[min].block;
              && majors == old(majors)[m := UnlinkedMajor(old(majors)[m], old(minors)[min])]
              && minors == Unlinked(old(minors), min)
              && lists == old(lists)[m := RemoveAt(old(lists)[m], k)]
    {
      var h := minors[min];
      var maj := h.block;
      majors := majors[maj := majors[maj].(usage := majors[maj].usage - (h.size + MINOR_HEADER))];
      if h.next != NULL { minors := minors[h.next := minors[h.next].(prev := h.prev)]; }
      if h.prev != NULL { minors := minors[h.prev := minors[h.prev].(next := h.next)]; }
      if h.prev == NULL { majors := majors[maj := majors[maj].(first := h.next)]; }
      minors := minors - {min};
      assert minors == Unlinked(old(minors), min);
      lists := lists[maj := RemoveAt(lists[maj], k)];
    }

    /** Unlinks an empty major from the chain and gives it back to the system. */
    method Drop(maj: nat, ghost k: nat)
      requires maj in majors && NULL !in majors && k < |chain| && chain[k] == maj
      requires majors[maj].prev != NULL ==> majors[maj].prev in majors && majors[maj].prev != maj
      requires majors[maj].next != NULL ==> majors[maj].next in majors && majors[maj].next != maj
      requires majors[maj].next != NULL ==> majors[maj].next != majors[maj].prev
      modifies `root, `best, `majors, `chain, `lists
      ensures root == (if old(root) == maj then old(majors)[maj].next else old(root))
      ensures best == (if old(best) == maj then NULL else old(best))
      ensures majors == Dropped(old(majors), maj)
      ensures chain == RemoveAt(old(chain), k) && lists == old(lists) - {maj}
    {
      hide RemoveAt;
      var h := majors[maj];
      if root == maj { root := h.next; }
      if best == maj { best := NULL; }
      if h.prev != NULL { majors := majors[h.prev := majors[h.prev].(next := h.next)]; }
      if h.next != NULL { majors := majors[h.next := majors[h.next].(prev := h.prev)]; }
      majors := majors - {maj};
      assert majors == Dropped(old(majors), maj);
      chain, lists := RemoveAt(chain, k), lists - {maj};
    }

    /** heap_alloc_release. A pointer that carries no live header makes the C code panic: `ok` is then false. */
    method Release(ptr: nat) returns (ok: bool)
      requires Valid()
      modifies this
      ensures Valid()
      ensures mem == old(mem)
      ensures ok <==> ptr == NULL || LivePtr(old(State()), ptr)
      ensures !ok || ptr == NULL ==> State() == old(State())
      ensures LivePtr(old(State()), ptr) ==> Released(old(State()), State(), ptr - MINOR_HEADER)
    {
      hide HeapOk, HeadersIntact, NoEmptyBlock;
      NullNotLive(State());
      if ptr == NULL { return true; }
      if ptr < MINOR_HEADER || ptr - MINOR_HEADER !in minors { return false; }
      var min := ptr - MINOR_HEADER;
      var maj := minors[min].block;
      ghost var h0 := State();
      ghost var k := MinorFacts(h0, min);
      Unlink(min, k);
      UnlinkIsSafe(h0, State(), min, k);
      ghost var h1 := State();
      if majors[maj].first == NULL {
        ghost var i := MajorFacts(h1, maj);
        Drop(maj, i);
        DropIsSafe(h0, h1, State(), min, k, i);
      } else {
        KeepIsSafe(h0, h1, min, k);
        if best != NULL {
          var bestSize := ToInt32(majors[best].size - majors[best].usage);
          var majSize := ToInt32(majors[maj].size - majors[maj].usage);
          if majSize > bestSize { best := maj; }
        }
      }
      ok := true;
    }

    // ----- Resize and use ------------------------------------------------------------------------

    /** The growing path of heap_alloc_resize: acquire, copy the requested bytes, release. */
    method Move(ptr: nat, newSize: nat, grant: nat) returns (newPtr: nat)
      requires Valid() && LivePtr(State(), ptr) && minors[ptr - MINOR_HEADER].size < PayloadSize(newSize)
      requires GrantOk(majors, grant, MajorBytes(PayloadSize(newSize), nodeSize))
      modifies this
      ensures Valid() && Resized(old(State()), State(), ptr, newPtr, PayloadSize(newSize))
    {
      hide Consistent, NoEmptyBlock, GrantOk, Released, SameBytes, AlignUp, Resized, NoFit, Allocated, Copy, MajorBytes,
        PayloadSize;
      ghost var h0 := State();
      var min := ptr - MINOR_HEADER;
      ghost var _ := MinorFacts(h0, min);
      var grew;
      newPtr, grew := Acquire(newSize, grant);
      ghost var h1 := State();
      AllocatedKeeps(h0, h1, newPtr - MINOR_HEADER, PayloadSize(newSize), min);
      mem := Copy(mem, newPtr, ptr, minors[min].reqSize);
      ghost var h2 := State();
      CopyIsSafe(h0, h1, h2, min, newPtr - MINOR_HEADER, PayloadSize(newSize));
      var ok := Release(ptr);
      MoveIsSafe(h0, h2, State(), min, newPtr - MINOR_HEADER, PayloadSize(newSize));
    }

    /** heap_alloc_resize. The result is NULL when the block was freed, or when `ptr` was not live (a panic). */
    method Resize(ptr: nat, newSize: nat, grant: nat) returns (r: nat)
      requires Valid()
      requires newSize > 0 ==> GrantOk(majors, grant, MajorBytes(PayloadSize(newSize), nodeSize))
      modifies this
      ensures Valid()
      ensures newSize == 0 ==> r == NULL
      ensures newSize == 0 && LivePtr(old(State()), ptr) ==> Released(old(State()), State(), ptr - MINOR_HEADER)
      ensures newSize == 0 && !LivePtr(old(State()), ptr) ==> State() == old(State())
      ensures newSize > 0 && ptr == NULL ==>
        r >= MINOR_HEADER && Allocated(old(State()), State(), r - MINOR_HEADER, PayloadSize(newSize))
      ensures newSize > 0 && ptr != NULL && !LivePtr(old(State()), ptr) ==> r == NULL && State() == old(State())
      ensures newSize > 0 && LivePtr(old(State()), ptr) ==> Resized(old(State()), State(), ptr, r, PayloadSize(newSize))
      ensures newSize > 0 && LivePtr(old(State()), ptr) ==>
        (old(minors)[ptr - MINOR_HEADER].size >= PayloadSize(newSize) ==> r == ptr && mem == old(mem))
    {
      hide Consistent, NoEmptyBlock, GrantOk, Released, Resized, NoFit, Allocated;
      var size := AlignUp(newSize);
      NullNotLive(State());
      if size == 0 {
        var _ := Release(ptr);
        return NULL;
      }
      if ptr == NULL {
        var block, _ := Acquire(newSize, grant);
        return block;
      }
      if ptr < MINOR_HEADER || ptr - MINOR_HEADER !in minors { return NULL; }
      var min := ptr - MINOR_HEADER;
      if minors[min].size >= size {
        ghost var h0 := State();
        minors := minors[min := minors[min].(reqSize := size)];
        RequestIsSafe(h0, State(), min, size);
        return ptr;
      }
      r := Move(ptr, newSize, grant);
    }

    /** A client writes one byte of a live payload. */
    method Store(ptr: nat, i: nat, value: int)
      requires Valid() && LivePtr(State(), ptr) && i < minors[ptr - MINOR_HEADER].size
      modifies `mem
      ensures Valid() && mem(ptr + i) == value
      ensures forall a: nat | a != ptr + i :: mem(a) == old(mem)(a)
      ensures Untouched(old(State()), State(), minors.Keys - {ptr - MINOR_HEADER})
    {
      ghost var h0 := State();
      var m := mem;
      mem := (a: nat) => if a == ptr + i then value else m(a);
      WriteIsSafe(h0, State(), ptr - MINOR_HEADER);
    }
  }

  ghost predicate PlacedInGap(h: Heap, h': Heap, m: nat, k: nat, p: nat, size: nat) {
    && Placed(h, h', m, k, p, size)
    && p == GapStart(m, h.minors, h.lists[m], k)
    && Fits(m, h.majors[m].size, h.minors, h.lists[m], k, size)
  }

  lemma NextIsLast(m: nat, size: nat, minors: Minors, l: seq<nat>, j: nat)
    requires ListOk(m, size, minors, l) && j < |l| && l[j] in minors && minors[l[j]].next == NULL
    ensures j + 1 == |l|
  {
    assert MinorLinked(m, size, minors, l, j);
    var j1: nat := j + 1;
    assert j1 < |l| ==> MinorLinked(m, size, minors, l, j1);
  }

  /** Blocks before position idx of the chain have no fitting gap. */
  ghost predicate NoGapBefore(h: Heap, idx: nat, size: nat)
  {
    forall i {:trigger h.chain[i]} | 0 <= i < idx && i < |h.chain| && h.chain[i] in h.majors && h.chain[i] in h.lists ::
      NoGap(h.chain[i], h.majors[h.chain[i]].size, h.minors, h.lists[h.chain[i]], size)
  }

  /** No block of the heap has a gap for `size` bytes. */
  ghost predicate NoFit(h: Heap, size: nat) {
    h.lists.Keys == h.majors.Keys && NoGapAnywhere(h.majors, h.minors, h.lists, size)
  }

  lemma NothingBefore(h: Heap, size: nat)
    ensures NoGapBefore(h, 0, size)
  {
  }

  lemma EmptyHasNoFit(h: Heap, size: nat)
    requires Consistent(h) && h.chain == []
    ensures NoFit(h, size)
  {
  }

  lemma OneMore(h: Heap, idx: nat, size: nat)
    requires idx < |h.chain| ==>
      h.chain[idx] in h.majors && h.chain[idx] in h.lists
      && NoGap(h.chain[idx], h.majors[h.chain[idx]].size, h.minors, h.lists[h.chain[idx]], size)
    ensures NoGapBefore(h, idx, size) ==> NoGapBefore(h, idx + 1, size)
  {
  }

  lemma RootFacts(h: Heap)
    requires Consistent(h)
    ensures NULL !in h.majors
    ensures h.root == NULL <==> h.chain == []
    ensures h.chain != [] ==> h.root == h.chain[0] && h.root in h.majors
    ensures h.root != NULL ==> h.chain != []
  {
    ChainEnds(h.majors, h.root, h.chain);
  }

  lemma IndexOf(h: Heap, m: nat) returns (i: nat)
    requires Consistent(h) && m in h.majors
    ensures i < |h.chain| && h.chain[i] == m
  {
    assert m in h.chain;
    i :| 0 <= i < |h.chain| && h.chain[i] == m;
  }

  /** What the search sees at position idx of the chain. */
  lemma AtNode(h: Heap, idx: nat, size: nat)
    requires Consistent(h) && idx < |h.chain|
    ensures h.chain[idx] in h.majors && h.chain[idx] in h.lists && NULL !in h.majors
    ensures var major := h.majors[h.chain[idx]];
            && (major.next == NULL <==> idx + 1 == |h.chain|)
            && (major.next != NULL ==> idx + 1 < |h.chain| && h.chain[idx + 1] == major.next)
            && (major.size - major.usage < size + MINOR_HEADER ==>
                  NoGap(h.chain[idx], major.size, h.minors, h.lists[h.chain[idx]], size))
  {
    var m := h.chain[idx];
    RootFacts(h);
    assert NodeLinked(h.majors, h.chain, idx);
    var j: nat := idx + 1;
    assert j < |h.chain| ==> NodeLinked(h.majors, h.chain, j);
    assert BlockOk(m, h.majors[m], h.minors, h.lists[m]);
    if h.majors[m].size - h.majors[m].usage < size + MINOR_HEADER {
      SkipIsSound(m, h.majors[m], h.minors, h.lists[m], size);
    }
  }

  lemma NothingLeft(h: Heap, size: nat)
    requires Consistent(h)
    requires NoGapBefore(h, |h.chain|, size)
    ensures NoFit(h, size)
  {
    forall m | m in h.majors ensures NoGap(m, h.majors[m].size, h.minors, h.lists[m], size) {
      assert m in h.chain;
      var i :| 0 <= i < |h.chain| && h.chain[i] == m;
    }
  }

  lemma ChainEnds(majors: Majors, root: nat, chain: seq<nat>)
    requires ChainOk(majors, root, chain)
    ensures NULL !in majors
    ensures root == NULL <==> chain == []
    ensures root != NULL ==> root in majors
  {
    if chain != [] { assert NodeLinked(majors, chain, 0); }
    forall i | 0 <= i < |chain| ensures chain[i] != NULL {
      assert NodeLinked(majors, chain, i);
    }
  }

  lemma GrantIsFresh(h: Heap, g: nat, bytes: nat)
    requires Consistent(h) && GrantOk(h.majors, g, bytes) && MAJOR_HEADER <= bytes
    ensures g !in h.majors
  {
    assert g in h.majors ==> Apart(g, bytes, g, h.majors[g].size) && BlockOk(g, h.majors[g], h.minors, h.lists[g]);
  }

  /** A block obtained for this request is empty and large enough. */
  lemma FreshHasRoom(h: Heap, h': Heap, g: nat, bytes: nat, size: nat)
    requires bytes >= size + MAJOR_HEADER + MINOR_HEADER
    ensures Extended(h, h', g, bytes) ==>
      && h'.majors[g].size - h'.majors[g].usage >= size + MINOR_HEADER
      && h'.lists[g] == []
      && Fits(g, h'.majors[g].size, h'.minors, h'.lists[g], 0, size)
  {
  }

  lemma UntouchedTrans(h0: Heap, h1: Heap, h2: Heap, keep: set<nat>)
    requires Untouched(h0, h1, keep) && Untouched(h1, h2, keep)
    ensures Untouched(h0, h2, keep)
  {
    forall p | p in keep ensures Kept(h0, h2, p) {
      assert Kept(h0, h1, p) && Kept(h1, h2, p);
    }
  }

  /** Puts together an optional growth h0 -> h1 and a placement h1 -> h2. */
  lemma Finished(h0: Heap, h1: Heap, h2: Heap, m: nat, k: nat, p: nat, size: nat, grew: bool, g: nat, bytes: nat)
    requires HeapValid(h0) && Consistent(h1) && Consistent(h2)
    requires PlacedInGap(h1, h2, m, k, p, size) && Allocated(h1, h2, p, size)
    requires !grew ==> h1 == h0
    requires grew ==> Extended(h0, h1, g, bytes) && GrantOk(h0.majors, g, bytes) && MAJOR_HEADER <= bytes && m == g
    requires grew ==> NoFit(h0, size)
    ensures HeapValid(h2) && Allocated(h0, h2, p, size)
    ensures grew <==> NoFit(h0, size)
    ensures h2.chain == h0.chain + (if grew then [g] else [])
  {
    if grew {
      ExtendedIsSafe(h0, h1, g, bytes);
      assert Untouched(h0, h1, h0.minors.Keys);
      UntouchedTrans(h0, h1, h2, h0.minors.Keys);
    } else {
      assert Fits(m, h0.majors[m].size, h0.minors, h0.lists[m], k, size);
      assert !NoGap(m, h0.majors[m].size, h0.minors, h0.lists[m], size);
      assert h2.chain == h0.chain + [];
    }
  }

  // ----- Release -------------------------------------------------------------------------------

  ghost predicate LivePtr(h: Heap, ptr: nat) {
    ptr >= MINOR_HEADER && ptr - MINOR_HEADER in h.minors
  }

  /** p is no longer live, and nobody else was disturbed. */
  ghost predicate Released(h: Heap, h': Heap, p: nat) {
    && h'.minors.Keys == h.minors.Keys - {p}
    && Untouched(h, h', h.minors.Keys - {p})
  }

  lemma NullNotLive(h: Heap)
    requires Consistent(h)
    ensures NULL !in h.minors && !LivePtr(h, NULL)
  {
    NullNotMinor(h.majors, h.minors, h.lists);
  }

  lemma MinorFacts(h: Heap, p: nat) returns (k: nat)
    requires Consistent(h) && p in h.minors
    ensures h.minors[p].block in h.majors && h.minors[p].block in h.lists && NULL !in h.minors
    ensures k < |h.lists[h.minors[p].block]| && h.lists[h.minors[p].block][k] == p
    ensures h.minors[p].prev != NULL ==> h.minors[p].prev in h.minors && h.minors[p].prev != p
    ensures h.minors[p].next != NULL ==> h.minors[p].next in h.minors && h.minors[p].next != p
    ensures h.minors[p].next != NULL ==> h.minors[p].next != h.minors[p].prev
    ensures h.minors[p].reqSize <= h.minors[p].size
  {
    k := Locate(h.majors, h.minors, h.lists, p);
    NullNotMinor(h.majors, h.minors, h.lists);
    var m := h.minors[p].block;
    var l, size := h.lists[m], h.majors[m].size;
    NeighbourBlocks(m, size, h.minors, l, k - 1);
    NeighbourBlocks(m, size, h.minors, l, k + 1);
    ListDistinct(m, size, h.minors, l);
  }

  lemma MajorFacts(h: Heap, m: nat) returns (i: nat)
    requires Consistent(h) && m in h.majors
    ensures NULL !in h.majors && i < |h.chain| && h.chain[i] == m
    ensures h.majors[m].prev != NULL ==> h.majors[m].prev in h.majors && h.majors[m].prev != m
    ensures h.majors[m].next != NULL ==> h.majors[m].next in h.majors && h.majors[m].next != m
    ensures h.majors[m].next != NULL ==> h.majors[m].next != h.majors[m].prev
  {
    RootFacts(h);
    i := IndexOf(h, m);
    assert NodeLinked(h.majors, h.chain, i);
    if i > 0 { assert NodeLinked(h.majors, h.chain, i - 1); }
    if i + 1 < |h.chain| { assert NodeLinked(h.majors, h.chain, i + 1); }
  }

  /** What Unlink does, as a relation on states. */
  ghost predicate UnlinkedAt(h: Heap, h': Heap, p: nat, k: nat) {
    && p in h.minors && h.minors[p].block in h.majors && h.minors[p].block in h.lists
    && var m := h.minors[p].block;
    && k < |h.lists[m]| && h.lists[m][k] == p
    && h' == h.(majors := h.majors[m := UnlinkedMajor(h.majors[m], h.minors[p])],
                minors := Unlinked(h.minors, p),
                lists := h.lists[m := RemoveAt(h.lists[m], k)])
  }

  lemma UnlinkIsSafe(h: Heap, h': Heap, p: nat, k: nat)
    requires Consistent(h) && UnlinkedAt(h, h', p, k)
    ensures Consistent(h') && Released(h, h', p)
    ensures h'.majors[h.minors[p].block].first == NULL <==> h'.lists[h.minors[p].block] == []
  {
    var m := h.minors[p].block;
    UnlinkKeepsHeap(h.majors, h.minors, h.root, h.chain, h.lists, m, k);
    forall q | q in h'.minors ensures Kept(h, h', q) && Stamped(h'.mem, q, MINOR_HEADER) {
      assert Stamped(h.mem, q, MINOR_HEADER);
    }
    forall q | q in h'.majors ensures Stamped(h'.mem, q, MAJOR_HEADER) {
      assert Stamped(h.mem, q, MAJOR_HEADER);
    }
    assert BlockOk(m, h'.majors[m], h'.minors, h'.lists[m]);
    FirstOfList(m, h'.majors[m], h'.minors, h'.lists[m]);
  }

  lemma KeepIsSafe(h: Heap, h': Heap, p: nat, k: nat)
    requires HeapValid(h) && UnlinkedAt(h, h', p, k) && h'.lists[h.minors[p].block] != []
    ensures NoEmptyBlock(h')
  {
  }

  lemma DropIsSafe(h: Heap, h1: Heap, h2: Heap, p: nat, k: nat, i: nat)
    requires HeapValid(h) && UnlinkedAt(h, h1, p, k) && Consistent(h1) && Released(h, h1, p)
    requires i < |h1.chain| && h1.chain[i] == h.minors[p].block && h1.chain[i] in h1.majors
    requires h.minors[p].block in h1.lists && h1.lists[h.minors[p].block] == []
    requires h2 == h1.(root := if h1.root == h1.chain[i] then h1.majors[h1.chain[i]].next else h1.root,
                       majors := Dropped(h1.majors, h1.chain[i]),
                       chain := RemoveAt(h1.chain, i),
                       lists := h1.lists - {h1.chain[i]})
    ensures HeapValid(h2) && Released(h, h2, p)
  {
    DropKeepsHeap(h1.majors, h1.minors, h1.root, h1.chain, h1.lists, i);
    forall q | q in h.minors.Keys - {p} ensures Kept(h, h2, q) {
      assert Kept(h, h1, q);
    }
  }

  // ----- Resize --------------------------------------------------------------------------------

  ghost function ByteAt(mem: Memory, base: nat, i: nat): int {
    mem(base + i)
  }

  ghost predicate SameBytes(mem: Memory, a: nat, mem': Memory, b: nat, n: nat) {
    forall i: nat | i < n :: ByteAt(mem', b, i) == ByteAt(mem, a, i)
  }

  /** The block of `ptr` now lives at r with room for `size` bytes, its first bytes came along, others are untouched. */
  ghost predicate Resized(h: Heap, h': Heap, ptr: nat, r: nat, size: nat)
    requires LivePtr(h, ptr)
  {
    var p, q := ptr - MINOR_HEADER, r - MINOR_HEADER;
    && LivePtr(h', r)
    && h'.minors[q].size >= size && h'.minors[q].reqSize == size
    && h'.minors.Keys == h.minors.Keys - {p} + {q}
    && (q == p || q !in h.minors)
    && SameBytes(h.mem, ptr, h'.mem, r, if h.minors[p].reqSize < size then h.minors[p].reqSize else size)
    && Untouched(h, h', h.minors.Keys - {p})
  }

  /** Distinct live blocks, headers included, never overlap. */
  lemma BlocksDisjoint(h: Heap, p: nat, q: nat)
    requires Consistent(h) && p in h.minors && q in h.minors && p != q
    ensures Apart(p, Extent(h.minors, p), q, Extent(h.minors, q))
  {
    var i := Locate(h.majors, h.minors, h.lists, p);
    var j := Locate(h.majors, h.minors, h.lists, q);
    var m := h.minors[p].block;
    if m == h.minors[q].block {
      if i < j {
        Ordered(m, h.majors[m].size, h.minors, h.lists[m], i, j);
      } else {
        Ordered(m, h.majors[m].size, h.minors, h.lists[m], j, i);
      }
    } else {
      Inside(h.majors, h.minors, h.lists, p);
      Inside(h.majors, h.minors, h.lists, q);
      assert Apart(m, h.majors[m].size, h.minors[q].block, h.majors[h.minors[q].block].size);
    }
  }

  lemma MajorHeaderApart(h: Heap, p: nat, m: nat)
    requires Consistent(h) && p in h.minors && m in h.majors
    ensures Apart(p, Extent(h.minors, p), m, MAJOR_HEADER)
  {
    Inside(h.majors, h.minors, h.lists, p);
    HeaderOutsideGap(h.majors, h.minors, h.lists, h.minors[p].block, p, Extent(h.minors, p), m);
  }

  /** Changing only bytes of p's payload disturbs no header and no other payload. */
  lemma WriteIsSafe(h: Heap, h': Heap, p: nat)
    requires Consistent(h) && p in h.minors && h' == h.(mem := h'.mem)
    requires forall a: nat | !(p + MINOR_HEADER <= a < p + MINOR_HEADER + h.minors[p].size) :: h'.mem(a) == h.mem(a)
    ensures Consistent(h') && Untouched(h, h', h.minors.Keys - {p})
  {
    forall q | q in h.minors ensures Stamped(h'.mem, q, MINOR_HEADER) && (q != p ==> Kept(h, h', q)) {
      assert Stamped(h.mem, q, MINOR_HEADER);
      if q != p { BlocksDisjoint(h, p, q); }
    }
    forall m | m in h.majors ensures Stamped(h'.mem, m, MAJOR_HEADER) {
      assert Stamped(h.mem, m, MAJOR_HEADER);
      MajorHeaderApart(h, p, m);
    }
  }

  lemma RequestKeepsLists(majors: Majors, minors: Minors, lists: map<nat, seq<nat>>, p: nat, size: nat)
    requires BlocksOk(majors, minors, lists) && p in minors && size <= minors[p].size
    ensures BlocksOk(majors, minors[p := minors[p].(reqSize := size)], lists)
  {
    var minors' := minors[p := minors[p].(reqSize := size)];
    forall m | m in majors ensures BlockOk(m, majors[m], minors', lists[m]) {
      var l := lists[m];
      assert BlockOk(m, majors[m], minors, l);
      forall j | 0 <= j < |l|
        ensures MinorLinked(m, majors[m].size, minors', l, j) && Extent(minors', l[j]) == Extent(minors, l[j])
      {
        assert MinorLinked(m, majors[m].size, minors, l, j);
      }
      UsedSame(minors, minors', l);
    }
    forall q | q in minors' ensures Owned(minors', lists, q) {
      assert Owned(minors, lists, q);
    }
  }

  lemma RequestIsSafe(h: Heap, h': Heap, p: nat, size: nat)
    requires HeapValid(h) && p in h.minors && size <= h.minors[p].size
    requires h' == h.(minors := h.minors[p := h.minors[p].(reqSize := size)])
    ensures HeapValid(h') && Resized(h, h', p + MINOR_HEADER, p + MINOR_HEADER, size)
  {
    RequestKeepsLists(h.majors, h.minors, h.lists, p, size);
    assert h'.minors.Keys == h.minors.Keys - {p} + {p};
  }

  lemma CopyBrings(mem: Memory, old0: Memory, dst: nat, src: nat, n: nat)
    requires SameBytes(old0, src, mem, src, n)
    ensures SameBytes(old0, src, Copy(mem, dst, src, n), dst, n)
  {
    forall i: nat | i < n ensures ByteAt(Copy(mem, dst, src, n), dst, i) == ByteAt(old0, src, i) {
      assert ByteAt(mem, src, i) == ByteAt(old0, src, i);
    }
  }

  lemma AllocatedKeeps(h0: Heap, h1: Heap, q: nat, size: nat, p: nat)
    requires Allocated(h0, h1, q, size) && p in h0.minors
    ensures p in h1.minors && h1.minors[p].reqSize == h0.minors[p].reqSize
  {
    assert Kept(h0, h1, p);
  }

  lemma CopyIsSafe(h0: Heap, h1: Heap, h2: Heap, p: nat, q: nat, size: nat)
    requires HeapValid(h1) && p in h0.minors && Allocated(h0, h1, q, size)
    requires h0.minors[p].reqSize <= size && h0.minors[p].reqSize <= h0.minors[p].size
    requires h2 == h1.(mem := Copy(h1.mem, q + MINOR_HEADER, p + MINOR_HEADER, h0.minors[p].reqSize))
    ensures HeapValid(h2) && Allocated(h0, h2, q, size)
    ensures SameBytes(h0.mem, p + MINOR_HEADER, h2.mem, q + MINOR_HEADER, h0.minors[p].reqSize)
  {
    hide Copy, HeapValid;
    CopyWrites(h1, h2, p, q, h0.minors[p].reqSize);
    UntouchedTrans(h0, h1, h2, h0.minors.Keys);
    assert Kept(h0, h1, p);
    hide Untouched;
    CopyBrings(h1.mem, h0.mem, q + MINOR_HEADER, p + MINOR_HEADER, h0.minors[p].reqSize);
  }

  /** A copy into block q touches no other block. */
  lemma CopyWrites(h1: Heap, h2: Heap, p: nat, q: nat, n: nat)
    requires HeapValid(h1) && q in h1.minors && n <= h1.minors[q].size
    requires h2 == h1.(mem := Copy(h1.mem, q + MINOR_HEADER, p + MINOR_HEADER, n))
    ensures HeapValid(h2) && Untouched(h1, h2, h1.minors.Keys - {q})
  {
    hide HeapOk, HeadersIntact;
    WriteIsSafe(h1, h2, q);
  }

  lemma MoveIsSafe(h0: Heap, h2: Heap, h3: Heap, p: nat, q: nat, size: nat)
    requires p in h0.minors && Allocated(h0, h2, q, size) && Released(h2, h3, p) && h3.mem == h2.mem
    requires h0.minors[p].reqSize <= size
    requires SameBytes(h0.mem, p + MINOR_HEADER, h2.mem, q + MINOR_HEADER, h0.minors[p].reqSize)
    ensures Resized(h0, h3, p + MINOR_HEADER, q + MINOR_HEADER, size)
  {
    assert Kept(h2, h3, q);
    UntouchedTrans(h0, h2, h3, h0.minors.Keys - {p});
  }
}
