/** Memory layout of the two-level heap (brutal-alloc/heap.c): header records kept by address,
    the shape the pointers must describe, and the pure facts about gaps, splicing and unlinking. */
module HeapLayout {
  import opened Basics

  const ALIGN: nat := 64
  const PAGE: nat := 4096
  const MAJOR_HEADER: nat := 64
  const MINOR_HEADER: nat := 64
  const NULL: nat := 0

  /** Header at the start of a block obtained from the system. */
  datatype Major = Major(pages: nat, size: nat, usage: int, prev: nat, next: nat, first: nat)

  /** Header in front of a payload. Only headers that carry the live magic number are recorded. */
  datatype Minor = Minor(size: nat, reqSize: nat, prev: nat, next: nat, block: nat)

  type Majors = map<nat, Major>
  type Minors = map<nat, Minor>

  function AlignUp(n: nat): (r: nat)
    ensures r % ALIGN == 0 && n <= r < n + ALIGN
  {
    (n + ALIGN - 1) / ALIGN * ALIGN
  }

  /** Bytes requested from the system for a payload of `size` bytes. */
  function MajorBytes(size: nat, nodeSize: nat): (r: nat)
    ensures r >= size + 128 && r >= size + MAJOR_HEADER + MINOR_HEADER
    ensures r % PAGE == 0
    ensures nodeSize - 4096 < r && (r < size + 128 + 4096 || r <= nodeSize)
  {
    var st := size + MAJOR_HEADER + MINOR_HEADER;
    var pages := if st % PAGE == 0 then st / PAGE else st / PAGE + 1;
    var least := nodeSize / PAGE;
    (if pages < least then least else pages) * PAGE
  }

  function At(s: seq<nat>, i: int): nat {
    if 0 <= i < |s| then s[i] else NULL
  }

  ghost function InsertAt(s: seq<nat>, k: nat, x: nat): (r: seq<nat>)
    requires k <= |s|
    ensures |r| == |s| + 1 && r[k] == x
    ensures forall i | 0 <= i < k :: r[i] == s[i]
    ensures forall i | k < i < |r| :: r[i] == s[i - 1]
  {
    s[..k] + [x] + s[k..]
  }

  ghost function RemoveAt(s: seq<nat>, k: nat): (r: seq<nat>)
    requires k < |s|
    ensures |r| == |s| - 1
    ensures forall i | 0 <= i < k :: r[i] == s[i]
    ensures forall i | k <= i < |r| :: r[i] == s[i + 1]
  {
    s[..k] + s[k + 1..]
  }

  // ----- Shape ---------------------------------------------------------------------------------

  ghost predicate NodeLinked(majors: Majors, chain: seq<nat>, i: nat)
    requires i < |chain|
  {
    && chain[i] in majors
    && chain[i] != NULL
    && majors[chain[i]].prev == At(chain, i - 1)
    && majors[chain[i]].next == At(chain, i + 1)
  }

  /** `chain` is what one sees when following `next` from `root`, and `prev` walks it backwards. */
  ghost predicate ChainOk(majors: Majors, root: nat, chain: seq<nat>) {
    && root == At(chain, 0)
    && Distinct(chain)
    && (forall i {:trigger NodeLinked(majors, chain, i)} | 0 <= i < |chain| :: NodeLinked(majors, chain, i))
    && (forall m | m in majors :: m in chain)
  }

  predicate Apart(a: nat, aSize: nat, b: nat, bSize: nat) {
    a + aSize <= b || b + bSize <= a
  }

  ghost predicate MajorsApart(majors: Majors) {
    forall a, b | a in majors && b in majors && a != b :: Apart(a, majors[a].size, b, majors[b].size)
  }

  ghost function Extent(minors: Minors, p: nat): nat {
    if p in minors then minors[p].size + MINOR_HEADER else 0
  }

  ghost function Used(minors: Minors, l: seq<nat>): nat {
    if l == [] then 0 else Extent(minors, l[0]) + Used(minors, l[1..])
  }

  /** Minor j of a list: live, owned by m, linked to its neighbours, and ending before the next one starts. */
  ghost predicate MinorLinked(m: nat, size: nat, minors: Minors, l: seq<nat>, j: nat) {
    && j < |l|
    && l[j] in minors
    && minors[l[j]].block == m
    && minors[l[j]].prev == At(l, j - 1)
    && minors[l[j]].next == At(l, j + 1)
    && minors[l[j]].reqSize <= minors[l[j]].size
    && m + MAJOR_HEADER <= l[j]
    && l[j] + MINOR_HEADER + minors[l[j]].size <= GapEnd(m, size, l, j + 1)
  }

  /** The minors of one major: doubly linked, address sorted, disjoint and inside it. */
  ghost predicate ListOk(m: nat, size: nat, minors: Minors, l: seq<nat>) {
    && MAJOR_HEADER <= size
    && forall j {:trigger MinorLinked(m, size, minors, l, j)} | 0 <= j < |l| :: MinorLinked(m, size, minors, l, j)
  }

  ghost predicate BlockOk(m: nat, major: Major, minors: Minors, l: seq<nat>) {
    && major.size == major.pages * PAGE
    && major.first == At(l, 0)
    && ListOk(m, major.size, minors, l)
    && major.usage == MAJOR_HEADER + Used(minors, l)
  }

  ghost predicate Owned(minors: Minors, lists: map<nat, seq<nat>>, p: nat) {
    p in minors && minors[p].block in lists && p in lists[minors[p].block]
  }

  ghost predicate BlocksOk(majors: Majors, minors: Minors, lists: map<nat, seq<nat>>) {
    && lists.Keys == majors.Keys
    && (forall m {:trigger BlockOk(m, majors[m], minors, lists[m])} | m in majors ::
      BlockOk(m, majors[m], minors, lists[m]))
    && (forall p {:trigger Owned(minors, lists, p)} | p in minors :: Owned(minors, lists, p))
  }

  /** Well-formedness of the whole heap. */
  ghost predicate HeapOk(majors: Majors, minors: Minors, root: nat, chain: seq<nat>, lists: map<nat, seq<nat>>) {
    && ChainOk(majors, root, chain)
    && MajorsApart(majors)
    && BlocksOk(majors, minors, lists)
  }

  // ----- Gaps ----------------------------------------------------------------------------------

  ghost function GapStart(m: nat, minors: Minors, l: seq<nat>, k: nat): nat
    requires k <= |l|
  {
    if k == 0 then m + MAJOR_HEADER else l[k - 1] + Extent(minors, l[k - 1])
  }

  ghost function GapEnd(m: nat, size: nat, l: seq<nat>, k: nat): nat
    requires k <= |l|
  {
    if k == |l| then m + size else l[k]
  }

  /** Gap number k (before minor k, or after the last one) can hold a header and `size` bytes. */
  ghost predicate Fits(m: nat, blockSize: nat, minors: Minors, l: seq<nat>, k: nat, size: nat)
    requires k <= |l|
  {
    GapEnd(m, blockSize, l, k) - GapStart(m, minors, l, k) >= size + MINOR_HEADER
  }

  ghost predicate NoGap(m: nat, blockSize: nat, minors: Minors, l: seq<nat>, size: nat) {
    forall k: nat | k <= |l| :: !Fits(m, blockSize, minors, l, k, size)
  }

  ghost predicate NoGapAnywhere(majors: Majors, minors: Minors, lists: map<nat, seq<nat>>, size: nat)
    requires lists.Keys == majors.Keys
  {
    forall m | m in majors :: NoGap(m, majors[m].size, minors, lists[m], size)
  }

  lemma {:induction false} UsedAppend(minors: Minors, a: seq<nat>, b: seq<nat>)
    ensures Used(minors, a + b) == Used(minors, a) + Used(minors, b)
  {
    if a == [] {
      assert a + b == b;
    } else {
      assert (a + b)[1..] == a[1..] + b;
      UsedAppend(minors, a[1..], b);
    }
  }

  lemma {:induction false} UsedSame(minors: Minors, minors': Minors, l: seq<nat>)
    requires forall j | 0 <= j < |l| :: Extent(minors, l[j]) == Extent(minors', l[j])
    ensures Used(minors, l) == Used(minors', l)
  {
    if l != [] {
      UsedSame(minors, minors', l[1..]);
    }
  }

  lemma UsedInsert(minors: Minors, l: seq<nat>, k: nat, p: nat)
    requires k <= |l|
    ensures Used(minors, InsertAt(l, k, p)) == Used(minors, l) + Extent(minors, p)
  {
    UsedAppend(minors, l[..k] + [p], l[k..]);
    UsedAppend(minors, l[..k], [p]);
    UsedAppend(minors, l[..k], l[k..]);
    assert l == l[..k] + l[k..];
    assert Used(minors, [p]) == Extent(minors, p) + Used(minors, []);
  }

  lemma UsedRemove(minors: Minors, l: seq<nat>, k: nat)
    requires k < |l|
    ensures Used(minors, RemoveAt(l, k)) == Used(minors, l) - Extent(minors, l[k])
  {
    UsedInsert(minors, RemoveAt(l, k), k, l[k]);
    assert InsertAt(RemoveAt(l, k), k, l[k]) == l;
  }

  lemma {:induction false} PrefixFits(m: nat, size: nat, minors: Minors, l: seq<nat>, k: nat)
    requires ListOk(m, size, minors, l) && k <= |l|
    ensures m + MAJOR_HEADER + Used(minors, l[..k]) <= GapStart(m, minors, l, k)
  {
    if k > 0 {
      PrefixFits(m, size, minors, l, k - 1);
      assert l[..k] == l[..k - 1] + [l[k - 1]];
      UsedAppend(minors, l[..k - 1], [l[k - 1]]);
      assert Used(minors, [l[k - 1]]) == Extent(minors, l[k - 1]) + Used(minors, []);
      if k > 1 { assert MinorLinked(m, size, minors, l, k - 2); }
      assert MinorLinked(m, size, minors, l, k - 1);
    }
  }

  lemma {:induction false} SuffixFits(m: nat, size: nat, minors: Minors, l: seq<nat>, k: nat)
    requires ListOk(m, size, minors, l) && k <= |l|
    ensures GapEnd(m, size, l, k) + Used(minors, l[k..]) <= m + size
    decreases |l| - k
  {
    if k < |l| {
      SuffixFits(m, size, minors, l, k + 1);
      assert l[k..][1..] == l[k + 1..];
      assert MinorLinked(m, size, minors, l, k);
    }
  }

  lemma GapInside(m: nat, size: nat, minors: Minors, l: seq<nat>, k: nat)
    requires ListOk(m, size, minors, l) && k <= |l|
    ensures m + MAJOR_HEADER <= GapStart(m, minors, l, k)
    ensures GapEnd(m, size, l, k) <= m + size
  {
    PrefixFits(m, size, minors, l, k);
    SuffixFits(m, size, minors, l, k);
  }

  /** The free-byte count `size - usage` bounds every gap. */
  lemma UsageBoundsGaps(m: nat, major: Major, minors: Minors, l: seq<nat>, k: nat)
    requires BlockOk(m, major, minors, l) && k <= |l|
    ensures GapEnd(m, major.size, l, k) - GapStart(m, minors, l, k) <= major.size - major.usage
  {
    PrefixFits(m, major.size, minors, l, k);
    SuffixFits(m, major.size, minors, l, k);
    assert l == l[..k] + l[k..];
    UsedAppend(minors, l[..k], l[k..]);
  }

  /** A block skipped by CASE 1 has no fitting gap. */
  lemma SkipIsSound(m: nat, major: Major, minors: Minors, l: seq<nat>, size: nat)
    requires BlockOk(m, major, minors, l)
    requires major.size - major.usage < size + MINOR_HEADER
    ensures NoGap(m, major.size, minors, l, size)
  {
    forall k: nat | k <= |l| ensures !Fits(m, major.size, minors, l, k, size) {
      UsageBoundsGaps(m, major, minors, l, k);
    }
  }

  /** Minors i < j of a list do not overlap and come in address order. */
  lemma {:induction false} Ordered(m: nat, size: nat, minors: Minors, l: seq<nat>, i: nat, j: nat)
    requires ListOk(m, size, minors, l) && i < j <= |l|
    ensures l[i] + Extent(minors, l[i]) <= GapEnd(m, size, l, j)
    ensures l[i] < GapEnd(m, size, l, j)
    decreases j - i
  {
    assert MinorLinked(m, size, minors, l, i);
    if i + 1 < j {
      Ordered(m, size, minors, l, i + 1, j);
    }
  }

  lemma ListDistinct(m: nat, size: nat, minors: Minors, l: seq<nat>)
    requires ListOk(m, size, minors, l)
    ensures Distinct(l)
  {
    forall i, j | 0 <= i < j < |l| ensures l[i] != l[j] {
      Ordered(m, size, minors, l, i, j);
    }
  }

  // ----- Where live minors are -----------------------------------------------------------------

  lemma Locate(majors: Majors, minors: Minors, lists: map<nat, seq<nat>>, q: nat) returns (j: nat)
    requires BlocksOk(majors, minors, lists) && q in minors
    ensures minors[q].block in majors
    ensures j < |lists[minors[q].block]| && lists[minors[q].block][j] == q
    ensures MinorLinked(minors[q].block, majors[minors[q].block].size, minors, lists[minors[q].block], j)
    ensures ListOk(minors[q].block, majors[minors[q].block].size, minors, lists[minors[q].block])
  {
    assert Owned(minors, lists, q);
    var m := minors[q].block;
    j :| 0 <= j < |lists[m]| && lists[m][j] == q;
    assert BlockOk(m, majors[m], minors, lists[m]);
  }

  lemma Inside(majors: Majors, minors: Minors, lists: map<nat, seq<nat>>, q: nat)
    requires BlocksOk(majors, minors, lists) && q in minors
    ensures var m := minors[q].block;
            && m in majors
            && m + MAJOR_HEADER <= q
            && q + Extent(minors, q) <= m + majors[m].size
  {
    var j := Locate(majors, minors, lists, q);
    var m := minors[q].block;
    Ordered(m, majors[m].size, minors, lists[m], j, |lists[m]|);
  }

  /** A place inside a gap touches no live header and no live payload. */
  lemma GapIsFree(majors: Majors, minors: Minors, lists: map<nat, seq<nat>>, m: nat, k: nat, p: nat, n: nat, q: nat)
    requires BlocksOk(majors, minors, lists) && MajorsApart(majors)
    requires m in majors && k <= |lists[m]| && q in minors
    requires GapStart(m, minors, lists[m], k) <= p && p + n <= GapEnd(m, majors[m].size, lists[m], k)
    ensures Apart(p, n, q, Extent(minors, q))
  {
    var j := Locate(majors, minors, lists, q);
    var m2 := minors[q].block;
    var l := lists[m];
    assert BlockOk(m, majors[m], minors, l);
    if m2 != m {
      GapInside(m, majors[m].size, minors, l, k);
      Inside(majors, minors, lists, q);
      assert Apart(m, majors[m].size, m2, majors[m2].size);
    } else if j < k {
      if j < k - 1 { Ordered(m, majors[m].size, minors, l, j, k - 1); }
    } else if j > k {
      Ordered(m, majors[m].size, minors, l, k, j);
    }
  }

  lemma NullNotMinor(majors: Majors, minors: Minors, lists: map<nat, seq<nat>>)
    requires BlocksOk(majors, minors, lists)
    ensures NULL !in minors
  {
    if NULL in minors {
      Inside(majors, minors, lists, NULL);
    }
  }

  // ----- Splicing a minor in -------------------------------------------------------------------

  /** All headers after putting a new one at p between `prev` and `next`. */
  ghost function Spliced(minors: Minors, prev: nat, next: nat, p: nat, size: nat, m: nat): (r: Minors)
    ensures r.Keys == minors.Keys + {p}
  {
    map q | q in minors.Keys + {p} ::
      if q == p then Minor(size, size, prev, next, m)
      else minors[q].(next := if q == prev then p else minors[q].next, prev := if q == next then p else minors[q].prev)
  }

  ghost function SplicedMajor(major: Major, prev: nat, p: nat, size: nat): Major {
    major.(usage := major.usage + size + MINOR_HEADER, first := if prev == NULL then p else major.first)
  }

  lemma SpliceLinks(m: nat, bs: nat, minors: Minors, l: seq<nat>, k: nat, p: nat, size: nat, j: nat)
    requires ListOk(m, bs, minors, l) && Distinct(l) && k <= |l| && j <= |l|
    requires p !in minors && NULL !in minors
    requires GapStart(m, minors, l, k) <= p && p + size + MINOR_HEADER <= GapEnd(m, bs, l, k)
    requires m + MAJOR_HEADER <= p
    ensures MinorLinked(m, bs, Spliced(minors, At(l, k - 1), At(l, k), p, size, m), InsertAt(l, k, p), j)
  {
    var l' := InsertAt(l, k, p);
    if j < k {
      assert MinorLinked(m, bs, minors, l, j);
      assert l'[j] == l[j] && j > 0 ==> l'[j - 1] == l[j - 1];
      assert l'[j + 1] == if j + 1 == k then p else l[j + 1];
      assert l[j] != At(l, k);
      assert l[j] == At(l, k - 1) <==> j == k - 1;
    } else if j > k {
      assert MinorLinked(m, bs, minors, l, j - 1);
      assert l'[j] == l[j - 1] && l'[j - 1] == if j - 1 == k then p else l[j - 2];
      assert l[j - 1] != At(l, k - 1);
      assert l[j - 1] == At(l, k) <==> j - 1 == k;
    }
  }

  lemma SpliceKeepsBlock(m: nat, major: Major, minors: Minors, l: seq<nat>, k: nat, p: nat, size: nat)
    requires BlockOk(m, major, minors, l) && k <= |l|
    requires p !in minors && NULL !in minors
    requires GapStart(m, minors, l, k) <= p && p + size + MINOR_HEADER <= GapEnd(m, major.size, l, k)
    ensures BlockOk(m, SplicedMajor(major, At(l, k - 1), p, size),
                    Spliced(minors, At(l, k - 1), At(l, k), p, size, m), InsertAt(l, k, p))
  {
    var l' := InsertAt(l, k, p);
    var minors' := Spliced(minors, At(l, k - 1), At(l, k), p, size, m);
    GapInside(m, major.size, minors, l, k);
    ListDistinct(m, major.size, minors, l);
    forall j | 0 <= j < |l'| ensures MinorLinked(m, major.size, minors', l', j) {
      SpliceLinks(m, major.size, minors, l, k, p, size, j);
    }
    forall j | 0 <= j < |l| ensures Extent(minors', l[j]) == Extent(minors, l[j]) {
      assert MinorLinked(m, major.size, minors, l, j);
    }
    UsedSame(minors, minors', l);
    UsedInsert(minors', l, k, p);
    if k > 0 { assert MinorLinked(m, major.size, minors, l, k - 1); }
  }

  /** Changing only headers of other blocks keeps a block well formed. */
  lemma OtherBlockKept(m: nat, major: Major, minors: Minors, minors': Minors, l: seq<nat>)
    requires BlockOk(m, major, minors, l)
    requires forall q | q in minors && minors[q].block == m :: q in minors' && minors'[q] == minors[q]
    ensures BlockOk(m, major, minors', l)
  {
    forall j | 0 <= j < |l| ensures MinorLinked(m, major.size, minors', l, j)
      && Extent(minors', l[j]) == Extent(minors, l[j]) {
      assert MinorLinked(m, major.size, minors, l, j);
    }
    UsedSame(minors, minors', l);
  }

  lemma NeighbourBlocks(m: nat, size: nat, minors: Minors, l: seq<nat>, k: int)
    requires ListOk(m, size, minors, l)
    ensures At(l, k) != NULL ==> At(l, k) in minors && minors[At(l, k)].block == m
  {
    if 0 <= k < |l| { assert MinorLinked(m, size, minors, l, k); }
  }

  lemma InsertKeepsMember(l: seq<nat>, k: nat, p: nat, q: nat)
    requires k <= |l| && q in l
    ensures q in InsertAt(l, k, p)
  {
    var j :| 0 <= j < |l| && l[j] == q;
    assert InsertAt(l, k, p)[if j < k then j else j + 1] == q;
  }

  /** Placing a header in a gap of block m keeps every block well formed. */
  lemma SpliceKeepsBlocks(majors: Majors, minors: Minors, lists: map<nat, seq<nat>>, m: nat, k: nat, p: nat, size: nat)
    requires BlocksOk(majors, minors, lists)
    requires m in majors && k <= |lists[m]|
    requires NULL !in minors && p !in minors
    requires GapStart(m, minors, lists[m], k) <= p
    requires p + size + MINOR_HEADER <= GapEnd(m, majors[m].size, lists[m], k)
    ensures BlocksOk(majors[m := SplicedMajor(majors[m], At(lists[m], k - 1), p, size)],
                     Spliced(minors, At(lists[m], k - 1), At(lists[m], k), p, size, m),
                     lists[m := InsertAt(lists[m], k, p)])
  {
    var l := lists[m];
    assert BlockOk(m, majors[m], minors, l);
    SpliceKeepsBlock(m, majors[m], minors, l, k, p, size);
    var prev, next := At(l, k - 1), At(l, k);
    var majors' := majors[m := SplicedMajor(majors[m], prev, p, size)];
    var minors' := Spliced(minors, prev, next, p, size, m);
    var lists' := lists[m := InsertAt(l, k, p)];
    NeighbourBlocks(m, majors[m].size, minors, l, k - 1);
    NeighbourBlocks(m, majors[m].size, minors, l, k);
    forall m2 | m2 in majors' ensures BlockOk(m2, majors'[m2], minors', lists'[m2]) {
      if m2 != m {
        assert BlockOk(m2, majors[m2], minors, lists[m2]);
        OtherBlockKept(m2, majors[m2], minors, minors', lists[m2]);
      }
    }
    forall q | q in minors' ensures Owned(minors', lists', q) {
      if q == p {
        assert lists'[m][k] == p;
      } else {
        assert Owned(minors, lists, q);
        if minors[q].block == m { InsertKeepsMember(l, k, p, q); }
      }
    }
  }

  lemma ChainFrame(majors: Majors, majors': Majors, root: nat, chain: seq<nat>)
    requires ChainOk(majors, root, chain)
    requires majors'.Keys == majors.Keys
    requires forall m | m in majors :: majors'[m].prev == majors[m].prev && majors'[m].next == majors[m].next
    ensures ChainOk(majors', root, chain)
  {
    forall i | 0 <= i < |chain| ensures NodeLinked(majors', chain, i) {
      assert NodeLinked(majors, chain, i);
    }
  }

  /** Placing a header in a gap of block m keeps the whole heap well formed. */
  lemma SpliceKeepsHeap(majors: Majors, minors: Minors, root: nat, chain: seq<nat>, lists: map<nat, seq<nat>>,
                        m: nat, k: nat, p: nat, size: nat)
    requires HeapOk(majors, minors, root, chain, lists)
    requires m in majors && k <= |lists[m]|
    requires GapStart(m, minors, lists[m], k) <= p
    requires p + size + MINOR_HEADER <= GapEnd(m, majors[m].size, lists[m], k)
    ensures NULL !in minors && p !in minors && p != NULL
    ensures HeapOk(majors[m := SplicedMajor(majors[m], At(lists[m], k - 1), p, size)],
                   Spliced(minors, At(lists[m], k - 1), At(lists[m], k), p, size, m),
                   root, chain, lists[m := InsertAt(lists[m], k, p)])
  {
    assert BlockOk(m, majors[m], minors, lists[m]);
    GapInside(m, majors[m].size, minors, lists[m], k);
    NullNotMinor(majors, minors, lists);
    if p in minors {
      GapIsFree(majors, minors, lists, m, k, p, size + MINOR_HEADER, p);
    }
    SpliceKeepsBlocks(majors, minors, lists, m, k, p, size);
    ChainFrame(majors, majors[m := SplicedMajor(majors[m], At(lists[m], k - 1), p, size)], root, chain);
  }

  // ----- Unlinking a minor ---------------------------------------------------------------------

  /** All headers after freeing the one at p. */
  ghost function Unlinked(minors: Minors, p: nat): (r: Minors)
    requires p in minors
    ensures r.Keys == minors.Keys - {p}
  {
    map q | q in minors.Keys - {p} ::
      minors[q].(next := if q == minors[p].prev then minors[p].next else minors[q].next,
                 prev := if q == minors[p].next then minors[p].prev else minors[q].prev)
  }

  ghost function UnlinkedMajor(major: Major, minor: Minor): Major {
    major.(usage := major.usage - (minor.size + MINOR_HEADER),
           first := if minor.prev == NULL then minor.next else major.first)
  }

  lemma UnlinkLinks(m: nat, bs: nat, minors: Minors, l: seq<nat>, k: nat, j: nat)
    requires ListOk(m, bs, minors, l) && Distinct(l) && k < |l| && j < |l| - 1
    requires NULL !in minors && l[k] in minors
    ensures MinorLinked(m, bs, Unlinked(minors, l[k]), RemoveAt(l, k), j)
  {
    var l' := RemoveAt(l, k);
    assert MinorLinked(m, bs, minors, l, k);
    if j < k {
      assert MinorLinked(m, bs, minors, l, j);
      assert l'[j] == l[j] && l[j] != l[k] && l[j] != At(l, k + 1);
      assert l[j] == At(l, k - 1) <==> j == k - 1;
      if j == k - 1 { assert At(l', j + 1) == At(l, k + 1); }
    } else {
      assert MinorLinked(m, bs, minors, l, j + 1);
      assert l'[j] == l[j + 1] && l[j + 1] != l[k] && l[j + 1] != At(l, k - 1);
      assert l[j + 1] == At(l, k + 1) <==> j == k;
      if j == k { assert At(l', j - 1) == At(l, k - 1); }
    }
  }

  lemma UnlinkKeepsBlock(m: nat, major: Major, minors: Minors, l: seq<nat>, k: nat)
    requires BlockOk(m, major, minors, l) && k < |l|
    requires NULL !in minors && l[k] in minors
    ensures BlockOk(m, UnlinkedMajor(major, minors[l[k]]), Unlinked(minors, l[k]), RemoveAt(l, k))
  {
    var l' := RemoveAt(l, k);
    var minors' := Unlinked(minors, l[k]);
    ListDistinct(m, major.size, minors, l);
    forall j | 0 <= j < |l'| ensures MinorLinked(m, major.size, minors', l', j) {
      UnlinkLinks(m, major.size, minors, l, k, j);
    }
    forall j | 0 <= j < |l'| ensures Extent(minors', l'[j]) == Extent(minors, l'[j]) {
      assert l'[j] == l[if j < k then j else j + 1];
      assert MinorLinked(m, major.size, minors, l, if j < k then j else j + 1);
    }
    UsedSame(minors, minors', l');
    UsedRemove(minors, l, k);
    assert MinorLinked(m, major.size, minors, l, k);
    if k > 0 { assert MinorLinked(m, major.size, minors, l, k - 1); }
  }

  lemma RemoveKeepsMember(l: seq<nat>, k: nat, q: nat)
    requires k < |l| && q in l && q != l[k]
    ensures q in RemoveAt(l, k)
  {
    var j :| 0 <= j < |l| && l[j] == q;
    assert RemoveAt(l, k)[if j < k then j else j - 1] == q;
  }

  lemma UnlinkKeepsBlocks(majors: Majors, minors: Minors, lists: map<nat, seq<nat>>, m: nat, k: nat)
    requires BlocksOk(majors, minors, lists)
    requires m in majors && k < |lists[m]|
    requires NULL !in minors && lists[m][k] in minors
    ensures BlocksOk(majors[m := UnlinkedMajor(majors[m], minors[lists[m][k]])],
                     Unlinked(minors, lists[m][k]), lists[m := RemoveAt(lists[m], k)])
  {
    var l := lists[m];
    var p := l[k];
    assert BlockOk(m, majors[m], minors, l);
    UnlinkKeepsBlock(m, majors[m], minors, l, k);
    var majors' := majors[m := UnlinkedMajor(majors[m], minors[p])];
    var minors' := Unlinked(minors, p);
    var lists' := lists[m := RemoveAt(l, k)];
    assert MinorLinked(m, majors[m].size, minors, l, k);
    NeighbourBlocks(m, majors[m].size, minors, l, k - 1);
    NeighbourBlocks(m, majors[m].size, minors, l, k + 1);
    forall m2 | m2 in majors' ensures BlockOk(m2, majors'[m2], minors', lists'[m2]) {
      if m2 != m {
        assert BlockOk(m2, majors[m2], minors, lists[m2]);
        OtherBlockKept(m2, majors[m2], minors, minors', lists[m2]);
      }
    }
    forall q | q in minors' ensures Owned(minors', lists', q) {
      assert Owned(minors, lists, q);
      if minors[q].block == m { RemoveKeepsMember(l, k, q); }
    }
  }

  /** Freeing minor k of block m keeps the whole heap well formed. */
  lemma UnlinkKeepsHeap(majors: Majors, minors: Minors, root: nat, chain: seq<nat>, lists: map<nat, seq<nat>>, m: nat,
                        k: nat)
    requires HeapOk(majors, minors, root, chain, lists)
    requires m in majors && k < |lists[m]|
    ensures NULL !in minors && lists[m][k] in minors
    ensures HeapOk(majors[m := UnlinkedMajor(majors[m], minors[lists[m][k]])], Unlinked(minors, lists[m][k]),
                   root, chain, lists[m := RemoveAt(lists[m], k)])
  {
    NullNotMinor(majors, minors, lists);
    assert BlockOk(m, majors[m], minors, lists[m]);
    assert MinorLinked(m, majors[m].size, minors, lists[m], k);
    UnlinkKeepsBlocks(majors, minors, lists, m, k);
    ChainFrame(majors, majors[m := UnlinkedMajor(majors[m], minors[lists[m][k]])], root, chain);
  }

  // ----- Growing and shrinking the chain -------------------------------------------------------

  predicate Grantable(majors: Majors, g: nat, bytes: nat) {
    g != NULL && forall m | m in majors :: Apart(g, bytes, m, majors[m].size)
  }

  /** All major headers after linking a fresh one at g behind `last` (or as the root). */
  ghost function Grown(majors: Majors, last: nat, g: nat, pages: nat): (r: Majors)
    ensures r.Keys == majors.Keys + {g}
  {
    map m | m in majors.Keys + {g} ::
      if m == g then Major(pages, pages * PAGE, MAJOR_HEADER, last, NULL, NULL)
      else majors[m].(next := if m == last then g else majors[m].next)
  }

  lemma GrowLinks(majors: Majors, chain: seq<nat>, g: nat, pages: nat, i: nat)
    requires Distinct(chain) && g !in majors && g != NULL && i <= |chain|
    requires forall j {:trigger NodeLinked(majors, chain, j)} | 0 <= j < |chain| :: NodeLinked(majors, chain, j)
    ensures NodeLinked(Grown(majors, At(chain, |chain| - 1), g, pages), chain + [g], i)
    ensures i < |chain| ==> chain[i] != g
  {
    var chain' := chain + [g];
    if i < |chain| {
      assert NodeLinked(majors, chain, i);
      assert chain[i] == At(chain, |chain| - 1) <==> i == |chain| - 1;
      assert At(chain', i - 1) == At(chain, i - 1);
      assert At(chain', i + 1) == if i + 1 == |chain| then g else At(chain, i + 1);
    } else {
      assert At(chain', i + 1) == NULL && At(chain', i - 1) == At(chain, i - 1);
    }
  }

  lemma GrowKeepsChain(majors: Majors, root: nat, chain: seq<nat>, g: nat, pages: nat)
    requires ChainOk(majors, root, chain) && g !in majors && g != NULL
    ensures ChainOk(Grown(majors, At(chain, |chain| - 1), g, pages), if chain == [] then g else root, chain + [g])
  {
    var chain' := chain + [g];
    var majors' := Grown(majors, At(chain, |chain| - 1), g, pages);
    forall i | 0 <= i < |chain'| ensures NodeLinked(majors', chain', i) && (i < |chain| ==> chain[i] != g) {
      GrowLinks(majors, chain, g, pages, i);
    }
    assert Distinct(chain');
    assert chain'[|chain|] == g;
    forall m | m in majors' ensures m in chain' {
      if m != g { assert m in chain; }
    }
  }

  lemma GrowKeepsBlocks(majors: Majors, minors: Minors, lists: map<nat, seq<nat>>, last: nat, g: nat, pages: nat)
    requires BlocksOk(majors, minors, lists) && g !in majors && pages > 0
    ensures BlocksOk(Grown(majors, last, g, pages), minors, lists[g := []])
  {
    var majors' := Grown(majors, last, g, pages);
    forall m | m in majors' ensures BlockOk(m, majors'[m], minors, lists[g := []][m]) {
      if m != g { assert BlockOk(m, majors[m], minors, lists[m]); }
    }
    forall p | p in minors ensures Owned(minors, lists[g := []], p) {
      assert Owned(minors, lists, p);
    }
  }

  /** Linking a fresh empty block at the end keeps the whole heap well formed. */
  lemma GrowKeepsHeap(majors: Majors, minors: Minors, root: nat, chain: seq<nat>, lists: map<nat, seq<nat>>, g: nat,
                      pages: nat)
    requires HeapOk(majors, minors, root, chain, lists)
    requires g !in majors && pages > 0 && Grantable(majors, g, pages * PAGE)
    ensures HeapOk(Grown(majors, At(chain, |chain| - 1), g, pages), minors, if chain == [] then g else root,
                   chain + [g], lists[g := []])
  {
    GrowKeepsChain(majors, root, chain, g, pages);
    GrowKeepsBlocks(majors, minors, lists, At(chain, |chain| - 1), g, pages);
    var majors' := Grown(majors, At(chain, |chain| - 1), g, pages);
    forall a, b | a in majors' && b in majors' && a != b ensures Apart(a, majors'[a].size, b, majors'[b].size) {
      if a == g { assert Apart(g, pages * PAGE, b, majors[b].size); }
      else if b == g { assert Apart(g, pages * PAGE, a, majors[a].size); }
    }
  }

  /** All major headers after unlinking the one at m. */
  ghost function Dropped(majors: Majors, m: nat): (r: Majors)
    requires m in majors
    ensures r.Keys == majors.Keys - {m}
  {
    map q | q in majors.Keys - {m} ::
      majors[q].(next := if q == majors[m].prev then majors[m].next else majors[q].next,
                 prev := if q == majors[m].next then majors[m].prev else majors[q].prev)
  }

  lemma DropLinks(majors: Majors, chain: seq<nat>, k: nat, j: nat)
    requires Distinct(chain) && k < |chain| && j < |chain| - 1
    requires forall i {:trigger NodeLinked(majors, chain, i)} | 0 <= i < |chain| :: NodeLinked(majors, chain, i)
    requires chain[k] in majors
    ensures NodeLinked(Dropped(majors, chain[k]), RemoveAt(chain, k), j)
  {
    assert NodeLinked(majors, chain, k);
    if k > 0 { assert NodeLinked(majors, chain, k - 1); }
    if k + 1 < |chain| { assert NodeLinked(majors, chain, k + 1); }
    var c' := RemoveAt(chain, k);
    if j < k {
      assert NodeLinked(majors, chain, j);
      assert c'[j] == chain[j] && chain[j] != chain[k] && chain[j] != At(chain, k + 1);
      assert chain[j] == At(chain, k - 1) <==> j == k - 1;
      if j == k - 1 { assert At(c', j + 1) == At(chain, k + 1); }
    } else {
      assert NodeLinked(majors, chain, j + 1);
      assert c'[j] == chain[j + 1] && chain[j + 1] != chain[k] && chain[j + 1] != At(chain, k - 1);
      assert chain[j + 1] == At(chain, k + 1) <==> j == k;
      if j == k { assert At(c', j - 1) == At(chain, k - 1); }
    }
  }

  /** Returning an empty block to the system keeps the whole heap well formed. */
  lemma DropKeepsHeap(majors: Majors, minors: Minors, root: nat, chain: seq<nat>, lists: map<nat, seq<nat>>, k: nat)
    requires HeapOk(majors, minors, root, chain, lists)
    requires k < |chain| && chain[k] in majors && lists[chain[k]] == []
    ensures HeapOk(Dropped(majors, chain[k]), minors, if root == chain[k] then majors[chain[k]].next else root,
                   RemoveAt(chain, k), lists - {chain[k]})
  {
    var m := chain[k];
    var c', majors' := RemoveAt(chain, k), Dropped(majors, m);
    forall j | 0 <= j < |c'| ensures NodeLinked(majors', c', j) {
      DropLinks(majors, chain, k, j);
    }
    assert NodeLinked(majors, chain, k);
    forall i, j | 0 <= i < j < |c'| ensures c'[i] != c'[j] {
      assert c'[i] == chain[if i < k then i else i + 1] && c'[j] == chain[if j < k then j else j + 1];
    }
    forall q | q in majors' ensures q in c' {
      RemoveKeepsMember(chain, k, q);
    }
    forall q | q in majors' ensures BlockOk(q, majors'[q], minors, (lists - {m})[q]) {
      assert BlockOk(q, majors[q], minors, lists[q]);
    }
    forall p | p in minors ensures Owned(minors, lists - {m}, p) {
      assert Owned(minors, lists, p);
    }
  }
}
