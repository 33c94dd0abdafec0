/** Range operations (kernel/x86_64/vmm.c): vmm_map, vmm_unmap and vmm_update_flags against the flat page map. */
module PageRanges {
  import opened Basics
  import opened PageTree
  import opened PageTables

  /** Path of page i of a range. */
  function PageAt(base: nat, i: nat): (r: seq<nat>)
    ensures |r| == 4
  {
    PathOf(base + i * PAGE)
  }

  ghost predicate OwnRange(kpml: nat, root: nat, base: nat, n: nat) {
    forall i: nat | i < n :: OwnPath(kpml, root, PageAt(base, i))
  }

  /** Page p belongs to the range, is visible to r, and was not left out. */
  ghost predicate Hit(s: Tables, kpml: nat, root: nat, base: nat, n: nat, missed: set<nat>, r: nat, p: seq<nat>,
                      i: nat) {
    i < n && i !in missed && p == PageAt(base, i) && Sees(s, kpml, r, root, p)
  }

  ghost predicate MappedAt(s0: Tables, s1: Tables, kpml: nat, root: nat, v: nat, f: nat, flags: Flags, n: nat,
                           missed: set<nat>, r: nat, p: seq<nat>)
    requires |p| == 4
  {
    && (forall i: nat | Hit(s0, kpml, root, v, n, missed, r, p, i) ::
      Leaf(s1, r, p) == Some(MakeEntry(f + i * PAGE, flags)))
    && ((forall i: nat :: !Hit(s0, kpml, root, v, n, missed, r, p, i)) ==> Leaf(s1, r, p) == Leaf(s0, r, p))
  }

  /** Every page of the range translates to its frame, and no other translation changed. */
  ghost predicate RangeMapped(s0: Tables, s1: Tables, at: Places, kpml: nat, root: nat, v: nat, f: nat, flags: Flags,
                              n: nat, missed: set<nat>) {
    forall r, p | Mine(at, r, p) :: MappedAt(s0, s1, kpml, root, v, f, flags, n, missed, r, p)
  }

  ghost predicate UnmappedAt(s0: Tables, s1: Tables, kpml: nat, root: nat, v: nat, n: nat, r: nat, p: seq<nat>)
    requires |p| == 4
  {
    Leaf(s1, r, p) == if exists i: nat :: Hit(s0, kpml, root, v, n, {}, r, p, i) then None else Leaf(s0, r, p)
  }

  /** No page of the range translates any more, and no other translation changed. */
  ghost predicate RangeUnmapped(s0: Tables, s1: Tables, at: Places, kpml: nat, root: nat, v: nat, n: nat) {
    forall r, p | Mine(at, r, p) :: UnmappedAt(s0, s1, kpml, root, v, n, r, p)
  }

  ghost predicate FlaggedAt(s0: Tables, s1: Tables, kpml: nat, root: nat, v: nat, flags: Flags, n: nat, r: nat,
                            p: seq<nat>)
    requires |p| == 4
  {
    if exists i: nat :: Hit(s0, kpml, root, v, n, {}, r, p, i)
    then Leaf(s0, r, p).Some? && Leaf(s1, r, p) == Some(Entry(true, flags, Leaf(s0, r, p).value.frame))
    else Leaf(s1, r, p) == Leaf(s0, r, p)
  }

  /** Pages of the range keep their frames and get the new flags; no other translation changed. */
  ghost predicate RangeFlagged(s0: Tables, s1: Tables, at: Places, kpml: nat, root: nat, v: nat, flags: Flags, n: nat) {
    forall r, p | Mine(at, r, p) :: FlaggedAt(s0, s1, kpml, root, v, flags, n, r, p)
  }

  // ----- Facts about pages ---------------------------------------------------------------------

  lemma VpnAt(base: nat, i: nat)
    ensures Vpn(base + i * PAGE) == (base / PAGE + i) % PAGES
  {
    assert (base + i * PAGE) / PAGE == base / PAGE + i;
  }

  lemma ModDistinct(x: nat, i: nat, j: nat)
    requires i < j < i + PAGES
    ensures (x + i) % PAGES != (x + j) % PAGES
  {
    var a, b := (x + i) / PAGES, (x + j) / PAGES;
    assert x + i == a * PAGES + (x + i) % PAGES && x + j == b * PAGES + (x + j) % PAGES;
  }

  /** Up to 2^36 consecutive pages are pairwise different. */
  lemma PagesDistinct(base: nat, i: nat, j: nat)
    requires i < j < i + PAGES
    ensures PageAt(base, i) != PageAt(base, j)
  {
    hide PathOf, Vpn;
    VpnAt(base, i);
    VpnAt(base, j);
    ModDistinct(base / PAGE, i, j);
    PathIsPage(base + i * PAGE, base + j * PAGE);
  }

  lemma SeesOwn(s: Tables, kpml: nat, root: nat, p: seq<nat>)
    requires |p| == 4 && OwnPath(kpml, root, p)
    ensures Sees(s, kpml, root, root, p)
  {
  }

  /** Spaces that share a mapping translate it alike. */
  lemma SeesSameLeaf(s: Tables, at: Places, kpml: nat, r: nat, owner: nat, p: seq<nat>)
    requires Forest(s, at, kpml) && Mine(at, r, p) && Mine(at, owner, p) && OwnPath(kpml, owner, p)
    requires Sees(s, kpml, r, owner, p)
    ensures Leaf(s, r, p) == Leaf(s, owner, p)
  {
    LeafIsView(s, at, kpml, r, p);
    LeafIsView(s, at, kpml, owner, p);
  }

  // ----- One more page -------------------------------------------------------------------------

  lemma MapStepAt(s0: Tables, s1: Tables, s2: Tables, kpml: nat, root: nat, v: nat, f: nat, flags: Flags, n: nat,
                  missed: set<nat>,
                  r: nat, p: seq<nat>)
    requires |p| == 4 && MappedAt(s0, s1, kpml, root, v, f, flags, n, missed, r, p) && n !in missed
    requires forall i: nat | i < n && i !in missed :: PageAt(v, i) != PageAt(v, n)
    requires Leaf(s2, r, p) == if p == PageAt(v, n) && Sees(s0, kpml, r, root, p)
                               then Some(MakeEntry(f + n * PAGE, flags)) else Leaf(s1, r, p)
    ensures MappedAt(s0, s2, kpml, root, v, f, flags, n + 1, missed, r, p)
  {
    hide Leaf, PageAt, Sees;
    if p == PageAt(v, n) && Sees(s0, kpml, r, root, p) {
      assert Hit(s0, kpml, root, v, n + 1, missed, r, p, n);
    } else {
      var m := n + 1;
      assert forall i: nat ::
        Hit(s0, kpml, root, v, m, missed, r, p, i) <==> Hit(s0, kpml, root, v, n, missed, r, p, i);
      assert MappedAt(s0, s2, kpml, root, v, f, flags, m, missed, r, p);
    }
  }

  lemma MapStep(s0: Tables, s1: Tables, s2: Tables, a0: Places, a1: Places, kpml: nat, root: nat, v: nat, f: nat,
                flags: Flags, n: nat, missed: set<nat>)
    requires RangeMapped(s0, s1, a0, kpml, root, v, f, flags, n, missed) && SharedSame(s0, s1, a0, kpml) && Grew(a0, a1)
    requires Mine(a0, root, PageAt(v, n)) && OwnRange(kpml, root, v, n + 1)
    requires Leaf(s1, root, PageAt(v, n)).None? && n !in missed
    requires Updated(s1, s2, a1, kpml, root, PageAt(v, n), Some(MakeEntry(f + n * PAGE, flags)))
    ensures RangeMapped(s0, s2, a0, kpml, root, v, f, flags, n + 1, missed)
  {
    hide Leaf, PageAt, PathOf, IsPath, SharedSame, Sees, MappedAt;
    var path := PageAt(v, n);
    SeesOwn(s0, kpml, root, path);
    forall i: nat | i < n && i !in missed ensures PageAt(v, i) != path {
      if PageAt(v, i) == path { MappedMeansSome(s0, s1, kpml, root, v, f, flags, n, missed, i); }
    }
    forall r, p | Mine(a0, r, p) ensures MappedAt(s0, s2, kpml, root, v, f, flags, n + 1, missed, r, p) {
      assert Mine(a1, r, p);
      SeesSame(s0, s1, a0, kpml, r, root, p);
      MapStepAt(s0, s1, s2, kpml, root, v, f, flags, n, missed, r, p);
    }
  }

  lemma MappedMeansSome(s0: Tables, s1: Tables, kpml: nat, root: nat, v: nat, f: nat, flags: Flags, n: nat,
                        missed: set<nat>, i: nat)
    requires i < n && i !in missed && Sees(s0, kpml, root, root, PageAt(v, i))
    requires MappedAt(s0, s1, kpml, root, v, f, flags, n, missed, root, PageAt(v, i))
    ensures Leaf(s1, root, PageAt(v, i)) == Some(MakeEntry(f + i * PAGE, flags))
  {
    assert Hit(s0, kpml, root, v, n, missed, root, PageAt(v, i), i);
  }

  lemma MissStep(s0: Tables, s1: Tables, s2: Tables, a0: Places, a1: Places, kpml: nat, root: nat, v: nat, f: nat,
                 flags: Flags, n: nat, missed: set<nat>)
    requires RangeMapped(s0, s1, a0, kpml, root, v, f, flags, n, missed) && Grew(a0, a1)
    requires SameLeaves(s1, s2, a1)
    ensures RangeMapped(s0, s2, a0, kpml, root, v, f, flags, n + 1, missed + {n})
  {
    hide Leaf, PageAt, PathOf, IsPath, Sees;
    forall r, p | Mine(a0, r, p) ensures MappedAt(s0, s2, kpml, root, v, f, flags, n + 1, missed + {n}, r, p) {
      assert Mine(a1, r, p) && MappedAt(s0, s1, kpml, root, v, f, flags, n, missed, r, p);
      var m, missed' := n + 1, missed + {n};
      assert forall i: nat ::
        Hit(s0, kpml, root, v, m, missed', r, p, i) <==> Hit(s0, kpml, root, v, n, missed, r, p, i);
      assert MappedAt(s0, s2, kpml, root, v, f, flags, m, missed', r, p);
    }
  }

  /** A page not yet reached by the loop is as it was. */
  lemma NotYet(s0: Tables, s1: Tables, a0: Places, kpml: nat, root: nat, v: nat, f: nat, flags: Flags, n: nat,
               missed: set<nat>, i: nat)
    requires RangeMapped(s0, s1, a0, kpml, root, v, f, flags, n, missed)
    requires n <= i < PAGES && Mine(a0, root, PageAt(v, i))
    ensures Leaf(s1, root, PageAt(v, i)) == Leaf(s0, root, PageAt(v, i))
  {
    var p := PageAt(v, i);
    assert MappedAt(s0, s1, kpml, root, v, f, flags, n, missed, root, p);
    forall j: nat ensures !Hit(s0, kpml, root, v, n, missed, root, p, j) {
      if j < n { PagesDistinct(v, j, i); }
    }
  }

  /** The tables that a range needs. */
  ghost function NeededAll(root: nat, v: nat, n: nat): set<Pos> {
    if n == 0 then {} else NeededAll(root, v, n - 1) + Needed(root, PageAt(v, n - 1))
  }

  lemma NeededNone(root: nat, v: nat)
    ensures NeededAll(root, v, 0) == {}
  {
  }

  lemma {:induction false} NeededMore(root: nat, v: nat, i: nat, n: nat)
    requires i < n
    ensures NeededAll(root, v, i + 1) == NeededAll(root, v, i) + Needed(root, PageAt(v, i))
    ensures NeededAll(root, v, i + 1) <= NeededAll(root, v, n)
    decreases n - i
  {
    hide Needed, PageAt;
    if i + 1 < n {
      NeededMore(root, v, i + 1, n);
    }
  }

  /** Three tables a page are always enough. */
  lemma {:induction false} NeededBound(root: nat, v: nat, n: nat)
    ensures |NeededAll(root, v, n)| <= 3 * n
  {
    hide PageAt;
    if n > 0 {
      NeededBound(root, v, n - 1);
      var p := PageAt(v, n - 1);
      assert NeededAll(root, v, n)
        == NeededAll(root, v, n - 1) + {Pos(root, p[..1])} + {Pos(root, p[..2])} + {Pos(root, p[..3])};
    }
  }

  lemma GrewKeys(at: Places, at': Places)
    requires Grew(at, at')
    ensures at.Keys <= at'.Keys
  {
  }

  lemma Cards(a: set<Pos>, b: set<Pos>)
    requires a <= b
    ensures |b - a| == |b| - |a|
  {
    assert b == a + (b - a);
  }

  lemma Within(a: set<Pos>, b: set<Pos>)
    requires a <= b
    ensures |a| <= |b|
  {
    Cards(a, b);
  }

  lemma SameKeys(a: set<Pos>, b: set<Pos>)
    requires a <= b && |b| <= |a|
    ensures a == b
  {
    Cards(a, b);
  }

  /** If not all tables of a page are there, the last one is not. */
  lemma LeafTableMissing(s: Tables, at: Places, kpml: nat, root: nat, path: seq<nat>)
    requires Forest(s, at, kpml) && Mine(at, root, path) && !(Needed(root, path) <= at.Keys)
    ensures Pos(root, path[..3]) !in at
  {
    Parents(s, at, kpml, root, path);
  }

  /** The heap ran dry before all tables were there: it held fewer than were missing. */
  lemma TooFew(before: set<Pos>, now: set<Pos>, needed: set<Pos>, pool: nat)
    requires before <= now <= before + needed && !(needed <= now) && |now| == |before| + pool
    ensures |needed - before| > pool
  {
    var x :| x in needed && x !in now;
    Cards(before, now);
    assert (now - before) + {x} <= needed - before;
    Within((now - before) + {x}, needed - before);
  }

  lemma Enough(before: set<Pos>, now: set<Pos>, needed: set<Pos>, pool: nat, left: nat)
    requires before <= now && needed <= now && |now| + left == |before| + pool
    ensures |needed - before| <= pool
  {
    Cards(before, now);
    Within(needed - before, now - before);
  }

  /** Where the table pages went after i of n pages: every page from the heap became a needed table; either all tables
      needed so far are there, or the heap ran dry and held fewer pages than are needed in all. */
  ghost predicate Budget(before: set<Pos>, now: set<Pos>, pool0: nat, pool: nat, root: nat, v: nat, i: nat, n: nat,
                         missed: set<nat>) {
    && |now| + pool == |before| + pool0 && before <= now <= before + NeededAll(root, v, i)
    && (if missed == {} then NeededAll(root, v, i) <= now else |NeededAll(root, v, n) - before| > pool0 && pool == 0)
    && forall j | j in missed :: j < i && Pos(root, PageAt(v, j)[..3]) !in now
  }

  lemma BudgetStart(now: set<Pos>, pool: nat, root: nat, v: nat, n: nat)
    ensures Budget(now, now, pool, pool, root, v, 0, n, {})
  {
    NeededNone(root, v);
  }

  lemma BudgetMapped(before: set<Pos>, now: set<Pos>, now': set<Pos>, pool0: nat, pool: nat, pool': nat, root: nat,
                     v: nat,
                     i: nat, n: nat, missed: set<nat>)
    requires Budget(before, now, pool0, pool, root, v, i, n, missed) && i < n && |now'| + pool' == |now| + pool
    requires now <= now' <= now + Needed(root, PageAt(v, i)) && Needed(root, PageAt(v, i)) <= now'
    ensures Budget(before, now', pool0, pool', root, v, i + 1, n, missed)
  {
    hide Needed, PageAt, NeededAll;
    NeededMore(root, v, i, n);
    Within(now, now');
    if missed != {} { SameKeys(now, now'); }
  }

  lemma BudgetMissed(before: set<Pos>, now: set<Pos>, now': set<Pos>, pool0: nat, pool: nat, root: nat, v: nat, i: nat,
                     n: nat,
                     missed: set<nat>)
    requires Budget(before, now, pool0, pool, root, v, i, n, missed) && i < n && |now'| == |now| + pool
    requires now <= now' <= now + Needed(root, PageAt(v, i)) && !(Needed(root, PageAt(v, i)) <= now')
    requires Pos(root, PageAt(v, i)[..3]) !in now'
    ensures Budget(before, now', pool0, 0, root, v, i + 1, n, missed + {i})
  {
    hide Needed, PageAt, NeededAll;
    NeededMore(root, v, i, n);
    if missed != {} { SameKeys(now, now'); }
    TooFew(before, now', NeededAll(root, v, n), pool0);
  }

  lemma BudgetEnd(before: set<Pos>, now: set<Pos>, pool0: nat, pool: nat, root: nat, v: nat, n: nat, missed: set<nat>)
    requires Budget(before, now, pool0, pool, root, v, n, n, missed)
    ensures missed == {} <==> |NeededAll(root, v, n) - before| <= pool0
    ensures forall j | j in missed :: j < n && Pos(root, PageAt(v, j)[..3]) !in now
  {
    hide NeededAll, PageAt;
    if missed == {} { Enough(before, now, NeededAll(root, v, n), pool0, pool); }
  }

  /** Every page of the range that was not left out translates to its own frame, and the process can use it as the flags
      say. */
  ghost predicate Usable(s: Tables, root: nat, v: nat, f: nat, flags: Flags, n: nat, missed: set<nat>) {
    forall i: nat | i < n && i !in missed ::
      && Leaf(s, root, PageAt(v, i)) == Some(Entry(true, flags, f / 4096 + i))
      && Rights(s, root, PageAt(v, i)) == Some(Access(flags.writable, flags.user))
  }

  lemma NextFrame(f: nat, i: nat)
    ensures (f + i * PAGE) / PAGE == f / 4096 + i
  {
  }

  lemma RangeUsable(s0: Tables, s1: Tables, a0: Places, at: Places, kpml: nat, root: nat, v: nat, f: nat, flags: Flags,
                    n: nat, missed: set<nat>)
    requires RangeMapped(s0, s1, a0, kpml, root, v, f, flags, n, missed) && OwnRange(kpml, root, v, n)
    requires Forest(s1, at, kpml) && Pos(root, []) in a0 && Pos(root, []) in at
    ensures Usable(s1, root, v, f, flags, n, missed)
  {
    hide Leaf, Rights, Forest, OwnPath, PageAt, IsPath;
    forall i: nat | i < n && i !in missed
      ensures Leaf(s1, root, PageAt(v, i)) == Some(Entry(true, flags, f / 4096 + i))
      ensures Rights(s1, root, PageAt(v, i)) == Some(Access(flags.writable, flags.user))
    {
      var p := PageAt(v, i);
      PageFacts(a0, root, v, i);
      PageFacts(at, root, v, i);
      assert OwnPath(kpml, root, p);
      SeesOwn(s0, kpml, root, p);
      assert MappedAt(s0, s1, kpml, root, v, f, flags, n, missed, root, p);
      assert Hit(s0, kpml, root, v, n, missed, root, p, i);
      NextFrame(f, i);
      RightsAreLeafs(s1, at, kpml, root, p);
    }
  }

  /** vmm_map, page by page. A page whose tables could not be allocated is skipped silently: it ends up in `missed`.
      That happens exactly if the heap holds fewer pages than the range misses tables. */
  method Map(vmm: Vmm, root: nat, v: nat, f: nat, n: nat, flags: Flags) returns (r: Outcome, ghost missed: set<nat>)
    requires vmm.Valid() && Pos(root, []) in vmm.at && OwnRange(vmm.kpml, root, v, n) && n <= PAGES
    modifies vmm
    ensures vmm.Valid() && Grew(old(vmm.at), vmm.at)
    ensures AllPages(vmm.tables, vmm.pool) == old(AllPages(vmm.tables, vmm.pool))
    ensures SharedSame(old(vmm.tables), vmm.tables, old(vmm.at), vmm.kpml)
    ensures r == Panic <==> exists i: nat :: i < n && Leaf(old(vmm.tables), root, PageAt(v, i)).Some?
    ensures r == Done || r == Panic
    ensures r == Done ==> RangeMapped(old(vmm.tables), vmm.tables, old(vmm.at), vmm.kpml, root, v, f, flags, n, missed)
    ensures r == Done ==> Usable(vmm.tables, root, v, f, flags, n, missed)
    ensures r == Done ==> (missed == {} <==> |NeededAll(root, v, n) - old(vmm.at).Keys| <= |old(vmm.pool)|)
    ensures r == Done ==> forall j | j in missed :: j < n && Pos(root, PageAt(v, j)[..3]) !in vmm.at
  {
    hide Forest, SameLeaves, SharedSame, Leaf, PoolOk, Zeroed, Grew, Updated, RangeMapped, AllPages, PageAt, OwnPath,
      Needed, NeededAll, Budget, Rights, Usable;
    BudgetStart(vmm.at.Keys, |vmm.pool|, root, v, n);
    ghost var s0, a0, pool0 := vmm.tables, vmm.at, |vmm.pool|;
    StartMapped(s0, a0, vmm.kpml, root, v, f, flags);
    missed := {};
    var i := 0;
    while i < n
      invariant 0 <= i <= n
      invariant vmm.Valid() && Grew(a0, vmm.at) && Pos(root, []) in vmm.at
      invariant AllPages(vmm.tables, vmm.pool) == old(AllPages(vmm.tables, vmm.pool))
      invariant SharedSame(s0, vmm.tables, a0, vmm.kpml)
      invariant RangeMapped(s0, vmm.tables, a0, vmm.kpml, root, v, f, flags, i, missed)
      invariant forall j: nat | j < i :: Leaf(s0, root, PageAt(v, j)).None?
      invariant forall j | j in missed :: j < i
      invariant Budget(a0.Keys, vmm.at.Keys, pool0, |vmm.pool|, root, v, i, n, missed)
    {
      ghost var s1, a1, pool1 := vmm.tables, vmm.at, |vmm.pool|;
      PageFacts(a0, root, v, i);
      NotYet(s0, s1, a0, vmm.kpml, root, v, f, flags, i, missed, i);
      assert OwnPath(vmm.kpml, root, PageAt(v, i));
      r := vmm.MapPage(root, v + i * PAGE, f + i * PAGE, flags);
      SharedTrans(s0, s1, vmm.tables, a0, a1, vmm.kpml);
      GrewTrans(a0, a1, vmm.at, root);
      if r == Panic { return; }
      GrewKeys(a1, vmm.at);
      if r == Done {
        BudgetMapped(a0.Keys, a1.Keys, vmm.at.Keys, pool0, pool1, |vmm.pool|, root, v, i, n, missed);
        MapStep(s0, s1, vmm.tables, a0, a1, vmm.kpml, root, v, f, flags, i, missed);
      } else {
        MissStep(s0, s1, vmm.tables, a0, a1, vmm.kpml, root, v, f, flags, i, missed);
        LeafTableMissing(vmm.tables, vmm.at, vmm.kpml, root, PageAt(v, i));
        BudgetMissed(a0.Keys, a1.Keys, vmm.at.Keys, pool0, pool1, root, v, i, n, missed);
        missed := missed + {i};
      }
      i := i + 1;
    }
    RangeUsable(s0, vmm.tables, a0, vmm.at, vmm.kpml, root, v, f, flags, n, missed);
    BudgetEnd(a0.Keys, vmm.at.Keys, pool0, |vmm.pool|, root, v, n, missed);
    r := Done;
  }

  lemma StartMapped(s: Tables, at: Places, kpml: nat, root: nat, v: nat, f: nat, flags: Flags)
    requires Forest(s, at, kpml)
    ensures RangeMapped(s, s, at, kpml, root, v, f, flags, 0, {}) && SharedSame(s, s, at, kpml) && Grew(at, at)
  {
    NothingMoved(s, at, kpml);
  }

  lemma PageFacts(at: Places, root: nat, v: nat, i: nat)
    requires Pos(root, []) in at
    ensures Mine(at, root, PageAt(v, i)) && PageAt(v, i) == PathOf(v + i * PAGE)
  {
  }

  lemma SharedTrans(s0: Tables, s1: Tables, s2: Tables, a0: Places, a1: Places, kpml: nat)
    requires SharedSame(s0, s1, a0, kpml) && SharedSame(s1, s2, a1, kpml) && Grew(a0, a1)
    ensures SharedSame(s0, s2, a0, kpml)
  {
    forall r, i: nat | Pos(r, []) in a0 && r != kpml && SHARED <= i < ENTRIES ensures SameEntry(s0, s2, r, i) {
      assert SameEntry(s0, s1, r, i) && SameEntry(s1, s2, r, i);
    }
  }

  lemma GrewTrans(a0: Places, a1: Places, a2: Places, root: nat)
    requires Grew(a0, a1) && Grew(a1, a2) && Pos(root, []) in a0
    ensures Grew(a0, a2) && Pos(root, []) in a2
  {
  }

  // ----- Unmapping -----------------------------------------------------------------------------

  lemma UnmapStepAt(s0: Tables, s1: Tables, s2: Tables, kpml: nat, root: nat, v: nat, n: nat, r: nat, p: seq<nat>)
    requires |p| == 4 && UnmappedAt(s0, s1, kpml, root, v, n, r, p)
    requires Leaf(s2, r, p) == if p == PageAt(v, n) && Sees(s0, kpml, r, root, p) then None else Leaf(s1, r, p)
    ensures UnmappedAt(s0, s2, kpml, root, v, n + 1, r, p)
  {
    hide Leaf, PageAt, Sees;
    var m := n + 1;
    assert forall i: nat | i != n :: Hit(s0, kpml, root, v, m, {}, r, p, i) <==> Hit(s0, kpml, root, v, n, {}, r, p, i);
    assert Hit(s0, kpml, root, v, m, {}, r, p, n) <==> p == PageAt(v, n) && Sees(s0, kpml, r, root, p);
    assert UnmappedAt(s0, s2, kpml, root, v, m, r, p);
  }

  lemma UnmapStep(s0: Tables, s1: Tables, s2: Tables, at: Places, kpml: nat, root: nat, v: nat, n: nat)
    requires RangeUnmapped(s0, s1, at, kpml, root, v, n) && SharedSame(s0, s1, at, kpml)
    requires Updated(s1, s2, at, kpml, root, PageAt(v, n), None)
    ensures RangeUnmapped(s0, s2, at, kpml, root, v, n + 1)
  {
    hide Leaf, PageAt, PathOf, IsPath, SharedSame, Sees, UnmappedAt;
    forall r, p | Mine(at, r, p) ensures UnmappedAt(s0, s2, kpml, root, v, n + 1, r, p) {
      SeesSame(s0, s1, at, kpml, r, root, p);
      UnmapStepAt(s0, s1, s2, kpml, root, v, n, r, p);
    }
  }

  /** Skipping a page without a leaf table is the same as clearing it. */
  lemma AbsentIsCleared(s: Tables, at: Places, kpml: nat, root: nat, p: seq<nat>)
    requires Forest(s, at, kpml) && Mine(at, root, p) && OwnPath(kpml, root, p) && Leaf(s, root, p).None?
    ensures Updated(s, s, at, kpml, root, p, None)
  {
    forall r | Mine(at, r, p) && Sees(s, kpml, r, root, p) ensures Leaf(s, r, p) == None {
      SeesSameLeaf(s, at, kpml, r, root, p);
    }
  }

  /** Page i of a range can be unmapped when its turn comes: it has no leaf table and is skipped, or it is mapped and is
      not an earlier page of the range again. */
  ghost predicate Unmappable(s: Tables, at: Places, root: nat, v: nat, i: nat) {
    || Pos(root, PageAt(v, i)[..3]) !in at
    || (Leaf(s, root, PageAt(v, i)).Some? && forall j: nat | j < i :: PageAt(v, j) != PageAt(v, i))
  }

  /** vmm_unmap: pages without tables are skipped, an absent entry in a present table trips the assertion. */
  method Unmap(vmm: Vmm, root: nat, v: nat, n: nat) returns (r: Outcome)
    requires vmm.Valid() && Pos(root, []) in vmm.at && OwnRange(vmm.kpml, root, v, n)
    modifies vmm`tables
    ensures vmm.Valid() && vmm.tables.Keys == old(vmm.tables.Keys)
    ensures SharedSame(old(vmm.tables), vmm.tables, vmm.at, vmm.kpml)
    ensures r == Done || r == Panic
    ensures r == Done ==> RangeUnmapped(old(vmm.tables), vmm.tables, vmm.at, vmm.kpml, root, v, n)
    ensures r == Done <==> forall i: nat | i < n :: Unmappable(old(vmm.tables), vmm.at, root, v, i)
    ensures r == Panic ==>
      exists k: nat ::
        && k < n && !Unmappable(old(vmm.tables), vmm.at, root, v, k)
        && RangeUnmapped(old(vmm.tables), vmm.tables, vmm.at, vmm.kpml, root, v, k)
  {
    hide Forest, SharedSame, Leaf, PoolOk, Zeroed, Updated, RangeUnmapped, PageAt, OwnPath, Unmappable;
    ghost var s0 := vmm.tables;
    StartUnmapped(s0, vmm.at, vmm.kpml, root, v);
    var i: nat := 0;
    while i < n
      invariant i <= n && forall j: nat | j < i :: Unmappable(s0, vmm.at, root, v, j)
      invariant vmm.Valid() && vmm.tables.Keys == s0.Keys
      invariant SharedSame(s0, vmm.tables, vmm.at, vmm.kpml)
      invariant RangeUnmapped(s0, vmm.tables, vmm.at, vmm.kpml, root, v, i)
    {
      ghost var s1 := vmm.tables;
      PageFacts(vmm.at, root, v, i);
      assert OwnPath(vmm.kpml, root, PageAt(v, i));
      UnmappableNow(s0, s1, vmm.at, vmm.kpml, root, v, i);
      r := vmm.UnmapPage(root, v + i * PAGE);
      SharedTrans2(s0, s1, vmm.tables, vmm.at, vmm.kpml);
      if r == Panic { return; }
      if r == BadAddress { AbsentIsCleared(s1, vmm.at, vmm.kpml, root, PageAt(v, i)); }
      UnmapStep(s0, s1, vmm.tables, vmm.at, vmm.kpml, root, v, i);
      i := i + 1;
    }
    r := Done;
  }

  lemma StartUnmapped(s: Tables, at: Places, kpml: nat, root: nat, v: nat)
    requires Forest(s, at, kpml)
    ensures RangeUnmapped(s, s, at, kpml, root, v, 0) && SharedSame(s, s, at, kpml)
  {
    NothingMoved(s, at, kpml);
  }

  lemma SharedTrans2(s0: Tables, s1: Tables, s2: Tables, at: Places, kpml: nat)
    requires SharedSame(s0, s1, at, kpml) && SharedSame(s1, s2, at, kpml)
    ensures SharedSame(s0, s2, at, kpml)
  {
    SharedTrans(s0, s1, s2, at, at, kpml);
  }

  /** After i pages, page i is still mapped exactly if it was and has not come up before. */
  lemma UnmappableNow(s0: Tables, s1: Tables, at: Places, kpml: nat, root: nat, v: nat, i: nat)
    requires RangeUnmapped(s0, s1, at, kpml, root, v, i) && Mine(at, root, PageAt(v, i))
      && OwnPath(kpml, root, PageAt(v, i))
    ensures Unmappable(s0, at, root, v, i) <==>
      Pos(root, PageAt(v, i)[..3]) !in at || Leaf(s1, root, PageAt(v, i)).Some?
  {
    hide Leaf, PageAt, OwnPath;
    var p := PageAt(v, i);
    assert UnmappedAt(s0, s1, kpml, root, v, i, root, p);
    SeesOwn(s0, kpml, root, p);
    if j: nat :| j < i && PageAt(v, j) == p {
      assert Hit(s0, kpml, root, v, i, {}, root, p, j);
    }
  }

  /** vmm_unmap undoes vmm_map: mapping an unmapped range and unmapping it leaves every translation of every space. */
  lemma MapUnmapIdentity(s0: Tables, s1: Tables, s2: Tables, at: Places, kpml: nat, root: nat, v: nat, f: nat,
                         flags: Flags, n: nat, missed: set<nat>)
    requires Forest(s0, at, kpml) && Pos(root, []) in at && OwnRange(kpml, root, v, n)
    requires forall i: nat | i < n :: Leaf(s0, root, PageAt(v, i)).None?
    requires RangeMapped(s0, s1, at, kpml, root, v, f, flags, n, missed) && SharedSame(s0, s1, at, kpml)
    requires RangeUnmapped(s1, s2, at, kpml, root, v, n)
    ensures SameLeaves(s0, s2, at)
  {
    hide Leaf, PageAt, PathOf, IsPath, SharedSame, Sees, Forest, OwnPath;
    forall r, p | Mine(at, r, p) ensures Leaf(s2, r, p) == Leaf(s0, r, p) {
      assert MappedAt(s0, s1, kpml, root, v, f, flags, n, missed, r, p) && UnmappedAt(s1, s2, kpml, root, v, n, r, p);
      SeesSame(s0, s1, at, kpml, r, root, p);
      if i: nat :| Hit(s1, kpml, root, v, n, {}, r, p, i) {
        PageFacts(at, root, v, i);
        SeesSameLeaf(s0, at, kpml, r, root, p);
      } else {
        forall i: nat ensures !Hit(s0, kpml, root, v, n, missed, r, p, i) {
          assert !Hit(s1, kpml, root, v, n, {}, r, p, i);
        }
      }
    }
  }

  lemma UnmappedLess(s1: Tables, s2: Tables, at: Places, at': Places, kpml: nat, root: nat, v: nat, n: nat)
    requires RangeUnmapped(s1, s2, at', kpml, root, v, n) && Grew(at, at')
    ensures RangeUnmapped(s1, s2, at, kpml, root, v, n)
  {
    hide Leaf;
    forall r, p | Mine(at, r, p) ensures UnmappedAt(s1, s2, kpml, root, v, n, r, p) {
      assert Mine(at', r, p);
    }
  }

  /** A page that Map did not miss can be unmapped. */
  lemma MappedIsUnmappable(s0: Tables, s1: Tables, a0: Places, at: Places, kpml: nat, root: nat, v: nat, f: nat,
                           flags: Flags,
                           n: nat, missed: set<nat>, i: nat)
    requires RangeMapped(s0, s1, a0, kpml, root, v, f, flags, n, missed) && i < n <= PAGES && Pos(root, []) in a0
    requires OwnPath(kpml, root, PageAt(v, i)) && (i in missed ==> Pos(root, PageAt(v, i)[..3]) !in at)
    ensures Unmappable(s1, at, root, v, i)
  {
    hide Leaf, OwnPath;
    PageFacts(a0, root, v, i);
    if i !in missed {
      SeesOwn(s0, kpml, root, PageAt(v, i));
      assert MappedAt(s0, s1, kpml, root, v, f, flags, n, missed, root, PageAt(v, i));
      assert Hit(s0, kpml, root, v, n, missed, root, PageAt(v, i), i);
      forall j: nat | j < i ensures PageAt(v, j) != PageAt(v, i) {
        PagesDistinct(v, j, i);
      }
    }
  }

  /** vmm_map of an unmapped range and vmm_unmap of the same range, one after the other: both go through, and every
      space translates every page as before, however little memory there was for tables. */
  method MapThenUnmap(vmm: Vmm, root: nat, v: nat, f: nat, n: nat, flags: Flags)
    returns (mapped: Outcome, unmapped: Outcome)
    requires vmm.Valid() && Pos(root, []) in vmm.at && OwnRange(vmm.kpml, root, v, n) && n <= PAGES
    requires forall i: nat | i < n :: Leaf(vmm.tables, root, PageAt(v, i)).None?
    modifies vmm
    ensures vmm.Valid() && mapped == Done && unmapped == Done
    ensures SameLeaves(old(vmm.tables), vmm.tables, old(vmm.at))
  {
    hide Forest, SharedSame, SameLeaves, Leaf, PoolOk, Zeroed, Grew, AllPages, PageAt, OwnPath, RangeMapped,
      RangeUnmapped;
    hide NeededAll, Unmappable;
    ghost var s0, a0 := vmm.tables, vmm.at;
    ghost var missed;
    mapped, missed := Map(vmm, root, v, f, n, flags);
    GrewKeys(a0, vmm.at);
    ghost var s1 := vmm.tables;
    forall i: nat | i < n ensures Unmappable(s1, vmm.at, root, v, i) {
      assert OwnPath(vmm.kpml, root, PageAt(v, i));
      MappedIsUnmappable(s0, s1, a0, vmm.at, vmm.kpml, root, v, f, flags, n, missed, i);
    }
    unmapped := Unmap(vmm, root, v, n);
    UnmappedLess(s1, vmm.tables, a0, vmm.at, vmm.kpml, root, v, n);
    MapUnmapIdentity(s0, s1, vmm.tables, a0, vmm.kpml, root, v, f, flags, n, missed);
  }

  // ----- Changing flags ------------------------------------------------------------------------

  lemma FlagStepAt(s0: Tables, s1: Tables, s2: Tables, kpml: nat, root: nat, v: nat, flags: Flags, n: nat, r: nat,
                   p: seq<nat>)
    requires |p| == 4 && FlaggedAt(s0, s1, kpml, root, v, flags, n, r, p)
    requires p == PageAt(v, n) && Sees(s0, kpml, r, root, p) ==>
      Leaf(s0, r, p).Some? && Leaf(s2, r, p) == Some(Entry(true, flags, Leaf(s0, r, p).value.frame))
    requires !(p == PageAt(v, n) && Sees(s0, kpml, r, root, p)) ==> Leaf(s2, r, p) == Leaf(s1, r, p)
    ensures FlaggedAt(s0, s2, kpml, root, v, flags, n + 1, r, p)
  {
    hide Leaf, PageAt, Sees;
    var m := n + 1;
    assert forall i: nat | i != n :: Hit(s0, kpml, root, v, m, {}, r, p, i) <==> Hit(s0, kpml, root, v, n, {}, r, p, i);
    assert Hit(s0, kpml, root, v, m, {}, r, p, n) <==> p == PageAt(v, n) && Sees(s0, kpml, r, root, p);
    assert FlaggedAt(s0, s2, kpml, root, v, flags, m, r, p);
  }

  lemma FlagStep(s0: Tables, s1: Tables, s2: Tables, at: Places, kpml: nat, root: nat, v: nat, flags: Flags, n: nat)
    requires Forest(s0, at, kpml) && Mine(at, root, PageAt(v, n)) && OwnPath(kpml, root, PageAt(v, n))
    requires RangeFlagged(s0, s1, at, kpml, root, v, flags, n) && SharedSame(s0, s1, at, kpml)
    requires Leaf(s1, root, PageAt(v, n)).Some?
    requires Updated(s1, s2, at, kpml, root, PageAt(v, n),
      Some(Entry(true, flags, Leaf(s1, root, PageAt(v, n)).value.frame)))
    ensures RangeFlagged(s0, s2, at, kpml, root, v, flags, n + 1)
  {
    hide Leaf, PageAt, PathOf, IsPath, SharedSame, Sees, Forest, OwnPath;
    var path := PageAt(v, n);
    assert FlaggedAt(s0, s1, kpml, root, v, flags, n, root, path);
    forall r, p | Mine(at, r, p) ensures FlaggedAt(s0, s2, kpml, root, v, flags, n + 1, r, p) {
      assert FlaggedAt(s0, s1, kpml, root, v, flags, n, r, p);
      SeesSame(s0, s1, at, kpml, r, root, p);
      if p == path && Sees(s0, kpml, r, root, p) { SeesSameLeaf(s0, at, kpml, r, root, p); }
      FlagStepAt(s0, s1, s2, kpml, root, v, flags, n, r, p);
    }
  }

  lemma StartFlagged(s: Tables, at: Places, kpml: nat, root: nat, v: nat, flags: Flags)
    requires Forest(s, at, kpml)
    ensures RangeFlagged(s, s, at, kpml, root, v, flags, 0) && SharedSame(s, s, at, kpml)
  {
    NothingMoved(s, at, kpml);
  }

  /** vmm_update_flags: stops at the first page that is not mapped; `done` pages have been updated by then. */
  method UpdateFlags(vmm: Vmm, root: nat, v: nat, n: nat, flags: Flags) returns (r: Outcome, done: nat)
    requires vmm.Valid() && Pos(root, []) in vmm.at && OwnRange(vmm.kpml, root, v, n)
    modifies vmm`tables
    ensures vmm.Valid() && vmm.tables.Keys == old(vmm.tables.Keys)
    ensures RangeFlagged(old(vmm.tables), vmm.tables, vmm.at, vmm.kpml, root, v, flags, done)
    ensures r == Done <==> done == n
    ensures done <= n && (done < n ==> Leaf(vmm.tables, root, PageAt(v, done)).None?)
    ensures forall i: nat | i < done ::
      Rights(vmm.tables, root, PageAt(v, i)) == Some(Access(flags.writable, flags.user))
  {
    hide Forest, SharedSame, Leaf, PoolOk, Zeroed, Updated, RangeFlagged, PageAt, OwnPath, Rights;
    ghost var s0 := vmm.tables;
    StartFlagged(s0, vmm.at, vmm.kpml, root, v, flags);
    done := 0;
    while done < n
      invariant 0 <= done <= n
      invariant vmm.Valid() && vmm.tables.Keys == s0.Keys
      invariant SharedSame(s0, vmm.tables, vmm.at, vmm.kpml)
      invariant RangeFlagged(s0, vmm.tables, vmm.at, vmm.kpml, root, v, flags, done)
    {
      ghost var s1 := vmm.tables;
      PageFacts(vmm.at, root, v, done);
      assert OwnPath(vmm.kpml, root, PageAt(v, done));
      r := vmm.UpdatePage(root, v + done * PAGE, flags);
      if r != Done {
        RangeReflagged(s0, vmm.tables, vmm.at, vmm.kpml, root, v, flags, done);
        return;
      }
      SharedTrans2(s0, s1, vmm.tables, vmm.at, vmm.kpml);
      FlagStep(s0, s1, vmm.tables, vmm.at, vmm.kpml, root, v, flags, done);
      done := done + 1;
    }
    RangeReflagged(s0, vmm.tables, vmm.at, vmm.kpml, root, v, flags, done);
    r := Done;
  }

  lemma RangeReflagged(s0: Tables, s1: Tables, at: Places, kpml: nat, root: nat, v: nat, flags: Flags, n: nat)
    requires RangeFlagged(s0, s1, at, kpml, root, v, flags, n) && OwnRange(kpml, root, v, n)
    requires Forest(s1, at, kpml) && Pos(root, []) in at
    ensures forall i: nat | i < n :: Rights(s1, root, PageAt(v, i)) == Some(Access(flags.writable, flags.user))
  {
    hide Leaf, Rights, Forest, OwnPath, PageAt, IsPath;
    forall i: nat | i < n ensures Rights(s1, root, PageAt(v, i)) == Some(Access(flags.writable, flags.user)) {
      var p := PageAt(v, i);
      PageFacts(at, root, v, i);
      assert OwnPath(kpml, root, p);
      SeesOwn(s0, kpml, root, p);
      assert FlaggedAt(s0, s1, kpml, root, v, flags, n, root, p);
      assert Hit(s0, kpml, root, v, n, {}, root, p, i);
      RightsAreLeafs(s1, at, kpml, root, p);
    }
  }

  /** Where vmm_virt2phys departs from the page map: for a page that was mapped and unmapped again it answers 0, not an
      error. */
  method LookUpUnmapped(vmm: Vmm, root: nat, virt: nat, phys: nat, flags: Flags) returns (r: Option<nat>)
    requires vmm.Valid() && Pos(root, []) in vmm.at && OwnPath(vmm.kpml, root, PathOf(virt))
    requires Translate(vmm.tables, root, virt).None? && |Needed(root, PathOf(virt)) - vmm.at.Keys| <= |vmm.pool|
    modifies vmm
    ensures vmm.Valid() && Translate(vmm.tables, root, virt).None? && r == Some(0)
  {
    hide Forest, SharedSame, SameLeaves, Leaf, PoolOk, Zeroed, Grew, AllPages, PathOf, OwnPath;
    ghost var a0, pool0, s0 := vmm.at, |vmm.pool|, vmm.tables;
    ghost var path := PathOf(virt);
    var done := vmm.MapPage(root, virt, phys, flags);
    GrewKeys(a0, vmm.at);
    if done == OutOfMemory { TooFew(a0.Keys, vmm.at.Keys, Needed(root, path), pool0); }
    ghost var s1 := vmm.tables;
    assert Pos(root, path[..3]) in vmm.at;
    SeesOwn(s0, vmm.kpml, root, path);
    done := vmm.UnmapPage(root, virt);
    SeesOwn(s1, vmm.kpml, root, path);
    r := vmm.Virt2Phys(root, virt);
  }
}
