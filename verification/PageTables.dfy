/** The operations of kernel/x86_64/vmm.c on the tables in place. The kernel heap is a pool of free frames:
    heap_alloc takes one, heap_free gives one back. */
module PageTables {
  import opened Basics
  import opened PageTree

  datatype Outcome = Done | BadAddress | OutOfMemory | Panic

  /** An absent entry is all zeroes. */
  ghost predicate Zeroed(tables: Tables) {
    forall t, i | t in tables && 0 <= i < |tables[t]| && !tables[t][i].present :: tables[t][i] == CLEAN
  }

  ghost predicate PoolOk(tables: Tables, pool: seq<nat>) {
    && (forall i, j | 0 <= i < j < |pool| :: pool[i] != pool[j])
    && (forall f | f in pool :: f !in tables)
  }

  /** Space `root` sees what space `owner` maps at `path`. */
  ghost predicate Sees(tables: Tables, kpml: nat, root: nat, owner: nat, path: seq<nat>)
    requires |path| == 4
  {
    if OwnPath(kpml, root, path) then root == owner
    else owner == kpml && root in tables && path[0] < |tables[root]| && tables[root][path[0]].present
  }

  ghost predicate Mine(at: Places, root: nat, path: seq<nat>) {
    Pos(root, []) in at && |path| == 4 && IsPath(path)
  }

  /** No space translates any page differently. */
  ghost predicate SameLeaves(tables: Tables, tables': Tables, at: Places) {
    forall root, path | Mine(at, root, path) :: Leaf(tables', root, path) == Leaf(tables, root, path)
  }

  /** Exactly the page at `path` changed, for exactly the spaces that see `owner`'s mappings there. */
  ghost predicate Updated(tables: Tables, tables': Tables, at: Places, kpml: nat, owner: nat, path: seq<nat>,
                          e: Option<Entry>)
    requires |path| == 4
  {
    forall r, p | Mine(at, r, p) ::
      Leaf(tables', r, p) == if p == path && Sees(tables, kpml, r, owner, path) then e else Leaf(tables, r, p)
  }

  /** PML4 entries that are copies of kernel entries are as before. */
  ghost predicate SharedSame(tables: Tables, tables': Tables, at: Places, kpml: nat) {
    forall r, i: nat | Pos(r, []) in at && r != kpml && SHARED <= i < ENTRIES :: SameEntry(tables, tables', r, i)
  }

  ghost predicate SameEntry(tables: Tables, tables': Tables, r: nat, i: nat) {
    r in tables && r in tables' && i < |tables[r]| && i < |tables'[r]| && tables'[r][i] == tables[r][i]
  }

  /** Tables only come: the positions known before are still taken by the same pages, and no space appeared. */
  ghost predicate Grew(at: Places, at': Places) {
    && (forall P | P in at :: P in at' && at'[P] == at[P])
    && (forall r | Pos(r, []) in at' :: Pos(r, []) in at)
  }

  ghost function AllPages(tables: Tables, pool: seq<nat>): multiset<nat> {
    multiset(tables.Keys) + multiset(pool)
  }

  lemma AddTableKeepsLeaves(tables: Tables, at: Places, kpml: nat, P: Pos, i: nat, f: nat, e: Entry)
    requires Forest(tables, at, kpml) && P in at && |P.pre| < 3 && i < ENTRIES && OwnEntry(kpml, P, i)
    requires at[P] in tables && |tables[at[P]]| == ENTRIES && !tables[at[P]][i].present
    requires f !in tables && e.present && e.frame == f && Unrestricted(P, e.flags)
    ensures SameLeaves(tables, AddTable(tables, at[P], i, f, e), at)
    ensures SharedSame(tables, AddTable(tables, at[P], i, f, e), at, kpml)
  {
    var C := Pos(P.root, P.pre + [i]);
    var tables', at' := AddTable(tables, at[P], i, f, e), at[C := f];
    AddTableKeepsForest(tables, at, kpml, P, i, f, e);
    forall root, path | Mine(at, root, path) ensures Leaf(tables', root, path) == Leaf(tables, root, path) {
      LeafIsView(tables, at, kpml, root, path);
      LeafIsView(tables', at', kpml, root, path);
      AddTableKeepsView(tables, at, kpml, P, i, f, e, root, path);
    }
    forall r, j: nat | Pos(r, []) in at && r != kpml && SHARED <= j < ENTRIES
      ensures SameEntry(tables, tables', r, j)
    {
      assert NodeOk(tables, at, kpml, Pos(r, []));
      if at[P] == r { assert at[Pos(r, [])] == at[P]; }
    }
  }

  lemma SetLeafUpdates(tables: Tables, at: Places, kpml: nat, P: Pos, i: nat, e: Entry)
    requires Forest(tables, at, kpml) && P in at && |P.pre| == 3 && i < ENTRIES
    requires at[P] in tables && |tables[at[P]]| == ENTRIES
    requires |P.pre + [i]| == 4
    ensures Updated(tables, SetEntry(tables, at[P], i, e), at, kpml, P.root, P.pre + [i], Present(e))
    ensures Forest(SetEntry(tables, at[P], i, e), at, kpml)
  {
    var tables' := SetEntry(tables, at[P], i, e);
    SetLeafKeepsForest(tables, at, kpml, P, i, e);
    forall r, p | Mine(at, r, p)
      ensures Leaf(tables', r, p) == if p == P.pre + [i] && Sees(tables, kpml, r, P.root, p)
                                     then Present(e) else Leaf(tables, r, p)
    {
      LeafIsView(tables, at, kpml, r, p);
      LeafIsView(tables', at, kpml, r, p);
      SetLeafView(tables, at, kpml, P, i, e, r, p);
    }
  }

  /** The tables below the root that a page needs. */
  ghost function Needed(root: nat, path: seq<nat>): set<Pos>
    requires |path| == 4
  {
    {Pos(root, path[..1]), Pos(root, path[..2]), Pos(root, path[..3])}
  }

  class Vmm {
    const kpml: nat
    var tables: Tables
    var pool: seq<nat>
    ghost var at: Places

    ghost predicate Valid()
      reads this
    {
      Forest(tables, at, kpml) && PoolOk(tables, pool) && Zeroed(tables)
    }

    /** vmm_get_pml. */
    method GetPml(t: nat, i: nat) returns (r: Option<nat>)
      requires t in tables && i < |tables[t]|
      ensures r == if tables[t][i].present then Some(tables[t][i].frame) else None
    {
      var entry := tables[t][i];
      if !entry.present { return None; }
      return Some(entry.frame);
    }

    /** vmm_get_pml_or_alloc; fails only when a table is needed and the heap is empty. */
    method GetPmlOrAlloc(t: nat, i: nat, flags: Flags, ghost P: Pos) returns (r: Option<nat>)
      requires Valid() && P in at && at[P] == t && |P.pre| < 3 && i < ENTRIES && OwnEntry(kpml, P, i)
      requires Unrestricted(P, flags)
      modifies `tables, `pool, `at
      ensures Valid() && Grew(old(at), at)
      ensures SameLeaves(old(tables), tables, old(at)) && SharedSame(old(tables), tables, old(at), kpml)
      ensures AllPages(tables, pool) == old(AllPages(tables, pool))
      ensures |at.Keys| + |pool| == |old(at).Keys| + |old(pool)|
      ensures at.Keys == old(at).Keys + if r.Some? then {Pos(P.root, P.pre + [i])} else {}
      ensures r.Some? ==> Pos(P.root, P.pre + [i]) in at && at[Pos(P.root, P.pre + [i])] == r.value
      ensures r.None? ==> old(pool) == [] && pool == [] && Pos(P.root, P.pre + [i]) !in at
    {
      hide Forest, SameLeaves, SharedSame, PoolOk, Zeroed, AllPages;
      TableFacts(tables, at, kpml, P, i);
      var entry := tables[t][i];
      if entry.present {
        NothingMoved(tables, at, kpml);
        return Some(entry.frame);
      }
      ChildMissing(tables, at, kpml, P, i);
      if pool == [] {
        NothingMoved(tables, at, kpml);
        return None;
      }
      var target := pool[0];
      var e := Entry(true, flags, target);
      TakeFromPool(tables, pool, t, i, e);
      AddTableKeepsForest(tables, at, kpml, P, i, target, e);
      AddTableKeepsLeaves(tables, at, kpml, P, i, target, e);
      pool := pool[1..];
      tables := tables[target := Blank()];
      tables := tables[t := tables[t][i := e]];
      assert tables == AddTable(old(tables), t, i, target, e);
      at := at[Pos(P.root, P.pre + [i]) := target];
      assert at.Keys == old(at).Keys + {Pos(P.root, P.pre + [i])};
      return Some(target);
    }

    /** The three table look-ups of vmm_map_page. */
    method Descend(root: nat, path: seq<nat>, flags: Flags) returns (t: Option<nat>)
      requires Valid() && Mine(at, root, path) && OwnPath(kpml, root, path)
      modifies `tables, `pool, `at
      ensures Valid() && Grew(old(at), at)
      ensures SameLeaves(old(tables), tables, old(at)) && SharedSame(old(tables), tables, old(at), kpml)
      ensures AllPages(tables, pool) == old(AllPages(tables, pool))
      ensures |at.Keys| + |pool| == |old(at).Keys| + |old(pool)| && at.Keys <= old(at).Keys + Needed(root, path)
      ensures t.Some? ==>
        Pos(root, path[..3]) in at && at[Pos(root, path[..3])] == t.value && Needed(root, path) <= at.Keys
      ensures t.None? ==> pool == [] && !(Needed(root, path) <= at.Keys) && Leaf(tables, root, path) == None
    {
      hide Forest, SameLeaves, SharedSame, Leaf, PoolOk, Zeroed, Grew, AllPages;
      var upper := flags.(writable := true, user := true);
      ghost var s0, a0 := tables, at;
      RootPage(tables, at, kpml, root);
      assert path[..1] == [] + [path[0]] && path[..2] == path[..1] + [path[1]] && path[..3] == path[..2] + [path[2]];
      var t3 := GetPmlOrAlloc(root, path[0], upper.(global := false), Pos(root, []));
      GrewRoot(a0, at, root);
      if t3.None? {
        MissingMeansNone(tables, at, kpml, root, path, 1);
        return None;
      }
      ghost var s1, a1 := tables, at;
      var t2 := GetPmlOrAlloc(t3.value, path[1], upper, Pos(root, path[..1]));
      SameTrans(s0, a0, s1, a1, tables, at, kpml);
      GrewRoot(a0, at, root);
      if t2.None? {
        MissingMeansNone(tables, at, kpml, root, path, 2);
        return None;
      }
      ghost var s2, a2 := tables, at;
      t := GetPmlOrAlloc(t2.value, path[2], upper, Pos(root, path[..2]));
      SameTrans(s0, a0, s2, a2, tables, at, kpml);
      GrewRoot(a0, at, root);
      if t.None? { MissingMeansNone(tables, at, kpml, root, path, 3); }
    }

    /** Writes one entry of a leaf table. */
    method WriteLeaf(root: nat, path: seq<nat>, t: nat, e: Entry)
      requires Valid() && Mine(at, root, path) && Pos(root, path[..3]) in at && at[Pos(root, path[..3])] == t
      requires e.present || e == CLEAN
      modifies `tables
      ensures Valid() && tables.Keys == old(tables.Keys)
      ensures Updated(old(tables), tables, at, kpml, root, path, Present(e))
      ensures SharedSame(old(tables), tables, at, kpml)
    {
      ghost var P := Pos(root, path[..3]);
      assert NodeOk(tables, at, kpml, P);
      assert path == P.pre + [path[3]];
      SetLeafUpdates(tables, at, kpml, P, path[3], e);
      SetLeafShared(tables, at, kpml, P, path[3], e);
      tables := tables[t := tables[t][path[3] := e]];
    }

    /** vmm_map_page. */
    method MapPage(root: nat, virt: nat, phys: nat, flags: Flags) returns (r: Outcome)
      requires Valid() && Pos(root, []) in at && OwnPath(kpml, root, PathOf(virt))
      modifies `tables, `pool, `at
      ensures Valid() && Grew(old(at), at)
      ensures AllPages(tables, pool) == old(AllPages(tables, pool))
      ensures SharedSame(old(tables), tables, old(at), kpml)
      ensures r == Panic <==> Translate(old(tables), root, virt).Some?
      ensures r == Done ==>
        Updated(old(tables), tables, old(at), kpml, root, PathOf(virt), Some(MakeEntry(phys, flags)))
      ensures r == Done ==> Translate(tables, root, virt) == Some(Entry(true, flags, phys / 4096))
      ensures r == Done ==> Rights(tables, root, PathOf(virt)) == Some(Access(flags.writable, flags.user))
      ensures r != Done ==> SameLeaves(old(tables), tables, old(at))
      ensures r in {Done, OutOfMemory, Panic}
      ensures |at.Keys| + |pool| == |old(at).Keys| + |old(pool)| && at.Keys <= old(at).Keys + Needed(root, PathOf(virt))
      ensures r == Done ==> Needed(root, PathOf(virt)) <= at.Keys
      ensures r == OutOfMemory ==> pool == [] && !(Needed(root, PathOf(virt)) <= at.Keys)
    {
      hide Forest, SameLeaves, SharedSame, Leaf, PoolOk, Zeroed, Grew, Updated, Rights;
      var path := PathOf(virt);
      ghost var s0, a0 := tables, at;
      var t := Descend(root, path, flags);
      ghost var s1 := tables;
      GrewRoot(a0, at, root);
      SameAt(s0, s1, a0, root, path);
      if t.None? { return OutOfMemory; }
      LeafOfTable(tables, at, kpml, root, path);
      if tables[t.value][path[3]].present { return Panic; }
      WriteLeaf(root, path, t.value, MakeEntry(phys, flags));
      SameThenUpdated(s0, a0, s1, at, tables, kpml, root, path, Some(MakeEntry(phys, flags)));
      Usable(s0, tables, a0, at, kpml, root, path, MakeEntry(phys, flags));
      return Done;
    }

    /** The walk shared by update, unmap and virt2phys: the leaf table, if all tables on the way exist. */
    method Walk(root: nat, path: seq<nat>) returns (t: Option<nat>)
      requires Valid() && Mine(at, root, path) && OwnPath(kpml, root, path)
      ensures t == if Pos(root, path[..3]) in at then Some(at[Pos(root, path[..3])]) else None
    {
      hide PoolOk, Zeroed;
      assert path[..1] == [] + [path[0]] && path[..2] == path[..1] + [path[1]] && path[..3] == path[..2] + [path[2]];
      WalkIsPosition(tables, at, kpml, root, path[..3]);
      WalkIsPosition(tables, at, kpml, root, path[..2]);
      WalkIsPosition(tables, at, kpml, root, path[..1]);
      hide Forest, TableAt;
      TableFacts(tables, at, kpml, Pos(root, []), path[0]);
      RootPage(tables, at, kpml, root);
      Parents(tables, at, kpml, root, path);
      var t3 := GetPml(root, path[0]);
      if t3.None? { return None; }
      TableFacts(tables, at, kpml, Pos(root, path[..1]), path[1]);
      var t2 := GetPml(t3.value, path[1]);
      if t2.None? { return None; }
      TableFacts(tables, at, kpml, Pos(root, path[..2]), path[2]);
      t := GetPml(t2.value, path[2]);
    }

    /** vmm_update_page: new flags, same frame. */
    method UpdatePage(root: nat, virt: nat, flags: Flags) returns (r: Outcome)
      requires Valid() && Pos(root, []) in at && OwnPath(kpml, root, PathOf(virt))
      modifies `tables
      ensures Valid() && tables.Keys == old(tables.Keys)
      ensures SharedSame(old(tables), tables, at, kpml)
      ensures r == Done <==> Translate(old(tables), root, virt).Some?
      ensures r == Done ==>
        var frame := Translate(old(tables), root, virt).value.frame;
        Updated(old(tables), tables, at, kpml, root, PathOf(virt), Some(Entry(true, flags, frame)))
      ensures r == Done ==> Rights(tables, root, PathOf(virt)) == Some(Access(flags.writable, flags.user))
      ensures r == BadAddress <==> Pos(root, PathOf(virt)[..3]) !in at
      ensures r != Done ==> tables == old(tables) && r in {BadAddress, Panic}
    {
      hide Forest, SharedSame, Leaf, PoolOk, Zeroed, Updated;
      var path := PathOf(virt);
      var t := Walk(root, path);
      NothingMoved(tables, at, kpml);
      if t.None? {
        MissingMeansNone(tables, at, kpml, root, path, 3);
        return BadAddress;
      }
      LeafOfTable(tables, at, kpml, root, path);
      var entry := tables[t.value][path[3]];
      if !entry.present { return Panic; }
      WriteLeaf(root, path, t.value, MakeEntry(entry.frame * PAGE, flags));
      Usable(old(tables), tables, at, at, kpml, root, path, MakeEntry(entry.frame * PAGE, flags));
      return Done;
    }

    /** vmm_unmap_page. */
    method UnmapPage(root: nat, virt: nat) returns (r: Outcome)
      requires Valid() && Pos(root, []) in at && OwnPath(kpml, root, PathOf(virt))
      modifies `tables
      ensures Valid() && tables.Keys == old(tables.Keys)
      ensures SharedSame(old(tables), tables, at, kpml)
      ensures r == Done <==> Translate(old(tables), root, virt).Some?
      ensures r == Done ==> Updated(old(tables), tables, at, kpml, root, PathOf(virt), None)
      ensures r == BadAddress <==> Pos(root, PathOf(virt)[..3]) !in at
      ensures r != Done ==> tables == old(tables) && r in {BadAddress, Panic}
    {
      hide Forest, SharedSame, Leaf, PoolOk, Zeroed, Updated;
      var path := PathOf(virt);
      var t := Walk(root, path);
      NothingMoved(tables, at, kpml);
      if t.None? {
        MissingMeansNone(tables, at, kpml, root, path, 3);
        return BadAddress;
      }
      LeafOfTable(tables, at, kpml, root, path);
      if !tables[t.value][path[3]].present { return Panic; }
      WriteLeaf(root, path, t.value, CLEAN);
      return Done;
    }

    /** vmm_virt2phys. The leaf entry is read without looking at its present bit and the offset inside the page is
        not added: the answer is the frame of a mapped page, 0 for an unmapped page whose leaf table exists, and
        an error only when a table is missing. */
    method Virt2Phys(root: nat, virt: nat) returns (r: Option<nat>)
      requires Valid() && Pos(root, []) in at && OwnPath(kpml, root, PathOf(virt))
      ensures r.None? <==> Pos(root, PathOf(virt)[..3]) !in at
      ensures r.None? ==> Translate(tables, root, virt).None?
      ensures r.Some? ==> r.value == match Translate(tables, root, virt) case Some(e) => e.frame * PAGE case None => 0
    {
      hide Forest, Leaf, PoolOk;
      var path := PathOf(virt);
      var t := Walk(root, path);
      if t.None? {
        MissingMeansNone(tables, at, kpml, root, path, 3);
        return None;
      }
      LeafOfTable(tables, at, kpml, root, path);
      return Some(tables[t.value][path[3]].frame * PAGE);
    }
  }

  /** A page just written translates to its entry, and can be used as that entry says. */
  lemma Usable(s0: Tables, s1: Tables, a0: Places, at: Places, kpml: nat, root: nat, path: seq<nat>, e: Entry)
    requires Mine(a0, root, path) && Pos(root, []) in at && OwnPath(kpml, root, path)
    requires Updated(s0, s1, a0, kpml, root, path, Some(e)) && Forest(s1, at, kpml)
    ensures Leaf(s1, root, path) == Some(e)
    ensures Rights(s1, root, path) == Some(Access(e.flags.writable, e.flags.user))
  {
    hide Forest, Leaf, Rights;
    RightsAreLeafs(s1, at, kpml, root, path);
  }

  lemma TableFacts(tables: Tables, at: Places, kpml: nat, P: Pos, i: nat)
    requires Forest(tables, at, kpml) && P in at && |P.pre| < 3 && i < ENTRIES && OwnEntry(kpml, P, i)
    ensures at[P] in tables && |tables[at[P]]| == ENTRIES
    ensures tables[at[P]][i].present ==>
      Pos(P.root, P.pre + [i]) in at && at[Pos(P.root, P.pre + [i])] == tables[at[P]][i].frame
  {
    assert NodeOk(tables, at, kpml, P) && EntryOk(tables, at, kpml, P, i);
  }

  /** Moving the first pool page into the tables. */
  lemma TakeFromPool(tables: Tables, pool: seq<nat>, t: nat, i: nat, e: Entry)
    requires PoolOk(tables, pool) && Zeroed(tables) && pool != [] && e.present
    requires t in tables && i < |tables[t]|
    ensures pool[0] !in tables && pool[0] != t
    ensures var tables' := AddTable(tables, t, i, pool[0], e);
            && PoolOk(tables', pool[1..]) && Zeroed(tables')
            && AllPages(tables', pool[1..]) == AllPages(tables, pool)
  {
    var tables' := AddTable(tables, t, i, pool[0], e);
    assert pool == [pool[0]] + pool[1..];
    assert pool[0] in pool;
    assert tables'.Keys == tables.Keys + {pool[0]};
    forall f | f in pool[1..] ensures f !in tables' {
      assert f in pool;
    }
  }

  /** A table's ancestors exist. */
  lemma Parents(tables: Tables, at: Places, kpml: nat, root: nat, path: seq<nat>)
    requires Forest(tables, at, kpml) && Mine(at, root, path)
    ensures Pos(root, path[..3]) in at ==> Pos(root, path[..2]) in at
    ensures Pos(root, path[..2]) in at ==> Pos(root, path[..1]) in at
    ensures forall k | 1 <= k <= 3 && Pos(root, path[..k]) in at && Pos(root, path[..k - 1]) in at ::
      var up := at[Pos(root, path[..k - 1])];
      up in tables && path[k - 1] < |tables[up]| && tables[up][path[k - 1]].present
  {
    forall k | 1 <= k <= 3 && Pos(root, path[..k]) in at
      ensures Pos(root, path[..k - 1]) in at
      ensures var up := at[Pos(root, path[..k - 1])];
              up in tables && path[k - 1] < |tables[up]| && tables[up][path[k - 1]].present
    {
      assert path[..k][..k - 1] == path[..k - 1];
      assert NodeOk(tables, at, kpml, Pos(root, path[..k]));
    }
  }

  lemma RootPage(tables: Tables, at: Places, kpml: nat, root: nat)
    requires Forest(tables, at, kpml) && Pos(root, []) in at
    ensures at[Pos(root, [])] == root && root in tables && |tables[root]| == ENTRIES
  {
    assert NodeOk(tables, at, kpml, Pos(root, []));
  }

  lemma GrewRoot(at: Places, at': Places, root: nat)
    requires Grew(at, at') && Pos(root, []) in at
    ensures Pos(root, []) in at'
  {
  }

  lemma SameAt(tables: Tables, tables': Tables, at: Places, root: nat, path: seq<nat>)
    requires SameLeaves(tables, tables', at) && Mine(at, root, path)
    ensures Leaf(tables', root, path) == Leaf(tables, root, path)
  {
  }

  /** A table missing on the way means the page is not mapped. */
  lemma {:induction false} MissingMeansNone(tables: Tables, at: Places, kpml: nat, root: nat, path: seq<nat>, k: nat)
    requires Forest(tables, at, kpml) && Mine(at, root, path) && OwnPath(kpml, root, path)
    requires 1 <= k <= 3 && Pos(root, path[..k]) !in at
    ensures Leaf(tables, root, path) == None
    decreases 3 - k
  {
    if k == 3 {
      LeafIsView(tables, at, kpml, root, path);
    } else {
      var next := path[..k + 1];
      assert next[..|next| - 1] == path[..k];
      assert Pos(root, next) in at ==> NodeOk(tables, at, kpml, Pos(root, next));
      MissingMeansNone(tables, at, kpml, root, path, k + 1);
    }
  }

  /** With the leaf table at hand, its entry is the translation. */
  lemma LeafOfTable(tables: Tables, at: Places, kpml: nat, root: nat, path: seq<nat>)
    requires Forest(tables, at, kpml) && Mine(at, root, path) && OwnPath(kpml, root, path) && Pos(root, path[..3]) in at
    ensures var t := at[Pos(root, path[..3])];
            && t in tables && |tables[t]| == ENTRIES
            && Leaf(tables, root, path) == Present(tables[t][path[3]])
  {
    assert NodeOk(tables, at, kpml, Pos(root, path[..3]));
    LeafIsView(tables, at, kpml, root, path);
  }

  lemma SameTrans(s0: Tables, a0: Places, s1: Tables, a1: Places, s2: Tables, a2: Places, kpml: nat)
    requires SameLeaves(s0, s1, a0) && SharedSame(s0, s1, a0, kpml) && Grew(a0, a1)
    requires SameLeaves(s1, s2, a1) && SharedSame(s1, s2, a1, kpml) && Grew(a1, a2)
    ensures SameLeaves(s0, s2, a0) && SharedSame(s0, s2, a0, kpml) && Grew(a0, a2)
  {
    forall r, i: nat | Pos(r, []) in a0 && r != kpml && SHARED <= i < ENTRIES
      ensures SameEntry(s0, s2, r, i)
    {
      assert SameEntry(s0, s1, r, i) && SameEntry(s1, s2, r, i);
    }
  }

  lemma SetLeafShared(tables: Tables, at: Places, kpml: nat, P: Pos, i: nat, e: Entry)
    requires Forest(tables, at, kpml) && P in at && |P.pre| == 3 && i < ENTRIES
    requires at[P] in tables && |tables[at[P]]| == ENTRIES
    ensures SharedSame(tables, SetEntry(tables, at[P], i, e), at, kpml)
  {
    forall r | Pos(r, []) in at ensures r in tables && |tables[r]| == ENTRIES && r != at[P] {
      assert NodeOk(tables, at, kpml, Pos(r, []));
      assert at[Pos(r, [])] == r && Pos(r, []) != P;
    }
  }

  lemma SeesSame(tables: Tables, tables': Tables, at: Places, kpml: nat, r: nat, owner: nat, path: seq<nat>)
    requires SharedSame(tables, tables', at, kpml) && Mine(at, r, path)
    ensures Sees(tables, kpml, r, owner, path) == Sees(tables', kpml, r, owner, path)
  {
    if !OwnPath(kpml, r, path) {
      assert SameEntry(tables, tables', r, path[0]);
    }
  }

  lemma SameThenUpdated(s0: Tables, a0: Places, s1: Tables, a1: Places, s2: Tables, kpml: nat, owner: nat,
                        path: seq<nat>, e: Option<Entry>)
    requires |path| == 4 && IsPath(path)
    requires SameLeaves(s0, s1, a0) && SharedSame(s0, s1, a0, kpml) && Grew(a0, a1)
    requires Updated(s1, s2, a1, kpml, owner, path, e) && SharedSame(s1, s2, a1, kpml)
    ensures Updated(s0, s2, a0, kpml, owner, path, e) && SharedSame(s0, s2, a0, kpml)
  {
    forall r, p | Mine(a0, r, p)
      ensures Leaf(s2, r, p) == if p == path && Sees(s0, kpml, r, owner, path) then e else Leaf(s0, r, p)
    {
      assert Mine(a1, r, p);
      SeesSame(s0, s1, a0, kpml, r, owner, path);
    }
    forall r, i: nat | Pos(r, []) in a0 && r != kpml && SHARED <= i < ENTRIES
      ensures SameEntry(s0, s2, r, i)
    {
      assert SameEntry(s0, s1, r, i) && SameEntry(s1, s2, r, i);
    }
  }

  lemma NothingMoved(tables: Tables, at: Places, kpml: nat)
    requires Forest(tables, at, kpml)
    ensures SameLeaves(tables, tables, at) && SharedSame(tables, tables, at, kpml)
  {
    forall r | Pos(r, []) in at ensures r in tables && |tables[r]| == ENTRIES {
      assert NodeOk(tables, at, kpml, Pos(r, []));
    }
  }
}
