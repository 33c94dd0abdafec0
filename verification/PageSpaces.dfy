/** Life cycle of an address space (kernel/x86_64/vmm.c): vmm_space_create and vmm_space_destroy. */
module PageSpaces {
  import opened Basics
  import opened PageTree
  import opened PageTables

  // ----- Creation ------------------------------------------------------------------------------

  /** A root whose user half is empty and whose shared half is the kernel's. */
  function NewRoot(kernel: seq<Entry>): (r: seq<Entry>)
    requires |kernel| == ENTRIES
    ensures |r| == ENTRIES
    ensures forall i | 0 <= i < SHARED :: r[i] == CLEAN
    ensures forall i | SHARED <= i < ENTRIES :: r[i] == kernel[i]
  {
    seq(ENTRIES, i requires 0 <= i < ENTRIES => if i < SHARED then CLEAN else kernel[i])
  }

  lemma NewRootKeepsForest(s: Tables, at: Places, kpml: nat, f: nat)
    requires Forest(s, at, kpml) && f !in s
    ensures kpml in s && |s[kpml]| == ENTRIES && Pos(f, []) !in at
    ensures Forest(s[f := NewRoot(s[kpml])], at[Pos(f, []) := f], kpml)
  {
    var R := Pos(f, []);
    assert NodeOk(s, at, kpml, Pos(kpml, []));
    assert R in at ==> NodeOk(s, at, kpml, R);
    var s', at' := s[f := NewRoot(s[kpml])], at[R := f];
    forall P | P in at' ensures NodeOk(s', at', kpml, P) {
      if P == R {
        forall i: nat | i < ENTRIES ensures EntryOk(s', at', kpml, R, i) {
          assert EntryOk(s, at, kpml, Pos(kpml, []), i);
          assert [] + [i] == [i];
        }
      } else {
        assert NodeOk(s, at, kpml, P);
        if P.pre != [] { assert NodeOk(s, at, kpml, Pos(P.root, P.pre[..|P.pre| - 1])); }
        forall i: nat | i < ENTRIES ensures EntryOk(s', at', kpml, P, i) {
          assert EntryOk(s, at, kpml, P, i);
        }
      }
    }
    forall P | P in at ensures at[P] != f { assert NodeOk(s, at, kpml, P); }
    forall t | t in s' ensures t in at'.Values {
      if t == f { assert at'[R] == f; }
      else {
        var P :| P in at && at[P] == t;
        assert at'[P] == t;
      }
    }
  }

  lemma NewRootLeaves(s: Tables, at: Places, kpml: nat, f: nat, p: seq<nat>)
    requires Forest(s, at, kpml) && f !in s && |p| == 4 && IsPath(p)
    requires kpml in s && |s[kpml]| == ENTRIES
    ensures var s' := s[f := NewRoot(s[kpml])];
            && (forall r | Mine(at, r, p) :: Leaf(s', r, p) == Leaf(s, r, p))
            && Leaf(s', f, p) == if p[0] < SHARED then None else Leaf(s, kpml, p)
  {
    NewRootKeepsForest(s, at, kpml, f);
    var s', at' := s[f := NewRoot(s[kpml])], at[Pos(f, []) := f];
    var pre := p[..3];
    forall P | P in at && P.pre == pre ensures at[P] != f && at'[P] == at[P]
      && LeafPos(s', at', P, p[3]) == LeafPos(s, at, P, p[3]) {
      assert NodeOk(s, at, kpml, P);
    }
    forall r | Mine(at, r, p) ensures Leaf(s', r, p) == Leaf(s, r, p) {
      assert NodeOk(s, at, kpml, Pos(r, []));
      LeafIsView(s, at, kpml, r, p);
      LeafIsView(s', at', kpml, r, p);
    }
    assert NodeOk(s, at, kpml, Pos(kpml, []));
    LeafIsView(s', at', kpml, f, p);
    LeafIsView(s, at, kpml, kpml, p);
    if p[0] < SHARED {
      assert Pos(f, pre) !in at' by {
        NoTablesYet(s', at', kpml, f, pre);
      }
    } else {
      KernelEntryAbsent(s, at, kpml, p);
    }
  }

  /** A kernel page below an absent PML4 entry is not mapped. */
  lemma KernelEntryAbsent(s: Tables, at: Places, kpml: nat, p: seq<nat>)
    requires Forest(s, at, kpml) && |p| == 4 && IsPath(p) && kpml in s && |s[kpml]| == ENTRIES
    ensures !s[kpml][p[0]].present ==> Leaf(s, kpml, p) == None
  {
    assert NodeOk(s, at, kpml, Pos(kpml, []));
    if !s[kpml][p[0]].present {
      ChildMissing(s, at, kpml, Pos(kpml, []), p[0]);
      assert [] + [p[0]] == p[..1];
      MissingMeansNone(s, at, kpml, kpml, p, 1);
    }
  }

  lemma NoTablesYet(s: Tables, at: Places, kpml: nat, f: nat, pre: seq<nat>)
    requires Forest(s, at, kpml) && Pos(f, []) in at && f in s && |s[f]| == ENTRIES && f != kpml
    requires forall i | 0 <= i < SHARED :: !s[f][i].present
    requires |pre| == 3 && IsPath(pre) && pre[0] < SHARED
    ensures Pos(f, pre) !in at
  {
    assert NodeOk(s, at, kpml, Pos(f, []));
    ChildMissing(s, at, kpml, Pos(f, []), pre[0]);
    assert [] + [pre[0]] == pre[..1];
    assert pre[..2][..1] == pre[..1] && pre[..3] == pre && pre[..3][..2] == pre[..2];
    assert Pos(f, pre[..2]) in at ==> NodeOk(s, at, kpml, Pos(f, pre[..2]));
    assert Pos(f, pre) in at ==> NodeOk(s, at, kpml, Pos(f, pre));
  }

  /** vmm_space_create. Without a free page the C code panics: the result is then None. */
  method SpaceCreate(vmm: Vmm) returns (r: Option<nat>)
    requires vmm.Valid()
    modifies vmm
    ensures vmm.Valid()
    ensures r.None? <==> old(vmm.pool) == []
    ensures AllPages(vmm.tables, vmm.pool) == old(AllPages(vmm.tables, vmm.pool))
    ensures SameLeaves(old(vmm.tables), vmm.tables, old(vmm.at))
    ensures r.Some? ==> Pos(r.value, []) !in old(vmm.at) && vmm.at == old(vmm.at)[Pos(r.value, []) := r.value]
    ensures r.Some? ==> forall p | |p| == 4 && IsPath(p) ::
      Leaf(vmm.tables, r.value, p) == if p[0] < 255 then None else Leaf(old(vmm.tables), vmm.kpml, p)
  {
    hide Leaf, IsPath;
    ghost var s0, a0, k := vmm.tables, vmm.at, vmm.kpml;
    NothingMoved(s0, a0, k);
    if vmm.pool == [] { return None; }
    var f := vmm.pool[0];
    NewRootKeepsForest(s0, a0, k, f);
    NewRootFromPool(s0, vmm.pool, k);
    vmm.pool := vmm.pool[1..];
    vmm.tables := vmm.tables[f := NewRoot(vmm.tables[vmm.kpml])];
    vmm.at := vmm.at[Pos(f, []) := f];
    forall p | |p| == 4 && IsPath(p)
      ensures Leaf(vmm.tables, f, p) == if p[0] < SHARED then None else Leaf(s0, k, p)
      ensures forall r | Mine(a0, r, p) :: Leaf(vmm.tables, r, p) == Leaf(s0, r, p)
    {
      NewRootLeaves(s0, a0, k, f, p);
    }
    return Some(f);
  }

  lemma NewRootFromPool(s: Tables, pool: seq<nat>, kpml: nat)
    requires PoolOk(s, pool) && Zeroed(s) && pool != [] && kpml in s && |s[kpml]| == ENTRIES
    ensures var s' := s[pool[0] := NewRoot(s[kpml])];
            PoolOk(s', pool[1..]) && Zeroed(s') && AllPages(s', pool[1..]) == AllPages(s, pool)
  {
    assert pool == [pool[0]] + pool[1..];
    assert pool[0] in pool;
    assert s[pool[0] := NewRoot(s[kpml])].Keys == s.Keys + {pool[0]};
    forall f | f in pool[1..] ensures f in pool {
    }
  }

  // ----- Destruction ---------------------------------------------------------------------------

  /** Position Q lies in the subtree at (r, pre). */
  ghost predicate Below(Q: Pos, r: nat, pre: seq<nat>) {
    Q.root == r && pre <= Q.pre
  }

  /** Pages of the subtree at (r, pre). */
  ghost function Subtree(at: Places, r: nat, pre: seq<nat>): set<nat> {
    set Q | Q in at && Below(Q, r, pre) :: at[Q]
  }

  /** Pages below the entries lo..hi of the table at (r, pre). */
  ghost function Branches(at: Places, r: nat, pre: seq<nat>, lo: nat, hi: nat): set<nat> {
    set Q | Q in at && Below(Q, r, pre) && |Q.pre| > |pre| && lo <= Q.pre[|pre|] < hi :: at[Q]
  }

  lemma BranchStep(at: Places, r: nat, pre: seq<nat>, lo: nat, i: nat)
    requires lo <= i
    ensures Branches(at, r, pre, lo, i + 1) == Branches(at, r, pre, lo, i) + Subtree(at, r, pre + [i])
  {
    forall Q | Q in at && Below(Q, r, pre) && |Q.pre| > |pre| ensures Below(Q, r, pre + [i]) <==> Q.pre[|pre|] == i {
    }
    forall Q | Q in at && Below(Q, r, pre + [i]) ensures Below(Q, r, pre) && |Q.pre| > |pre| {
    }
  }

  /** Distinct branches share no page, and the table itself is in none. */
  lemma BranchesApart(s: Tables, at: Places, kpml: nat, r: nat, pre: seq<nat>, lo: nat, i: nat)
    requires Forest(s, at, kpml) && Pos(r, pre) in at
    ensures Branches(at, r, pre, lo, i) !! Subtree(at, r, pre + [i])
    ensures at[Pos(r, pre)] !in Branches(at, r, pre, lo, i) + Subtree(at, r, pre + [i])
  {
    forall x | x in Branches(at, r, pre, lo, i) ensures x !in Subtree(at, r, pre + [i]) && x != at[Pos(r, pre)] {
      var Q :| Q in at && Below(Q, r, pre) && |Q.pre| > |pre| && lo <= Q.pre[|pre|] < i && at[Q] == x;
      forall R | R in at && Below(R, r, pre + [i]) ensures at[R] != x {
        assert R.pre[|pre|] == i && Q != R;
      }
      assert Q != Pos(r, pre);
    }
    forall x | x in Subtree(at, r, pre + [i]) ensures x != at[Pos(r, pre)] {
      var Q :| Q in at && Below(Q, r, pre + [i]) && at[Q] == x;
      assert Q != Pos(r, pre);
    }
  }

  /** A position's ancestors are taken too. */
  lemma {:induction false} Ancestors(s: Tables, at: Places, kpml: nat, Q: Pos, k: nat)
    requires Forest(s, at, kpml) && Q in at && k <= |Q.pre|
    ensures Pos(Q.root, Q.pre[..k]) in at
    decreases |Q.pre| - k
  {
    if k < |Q.pre| {
      Ancestors(s, at, kpml, Q, k + 1);
      var up := Q.pre[..k + 1];
      assert NodeOk(s, at, kpml, Pos(Q.root, up));
      assert up[..|up| - 1] == Q.pre[..k];
    } else {
      assert Q.pre[..k] == Q.pre;
    }
  }

  /** Below an absent entry, or below a leaf table, there are no tables. */
  lemma EmptyBranch(s: Tables, at: Places, kpml: nat, r: nat, pre: seq<nat>, i: nat)
    requires Forest(s, at, kpml) && Pos(r, pre) in at && i < ENTRIES
    requires |pre| == 3 || (at[Pos(r, pre)] in s && i < |s[at[Pos(r, pre)]]| && !s[at[Pos(r, pre)]][i].present)
    ensures Subtree(at, r, pre + [i]) == {}
  {
    forall Q | Q in at ensures !Below(Q, r, pre + [i]) {
      if Below(Q, r, pre + [i]) {
        assert NodeOk(s, at, kpml, Q);
        Ancestors(s, at, kpml, Q, |pre| + 1);
        assert Q.pre[..|pre| + 1] == pre + [i];
        if |pre| < 3 { ChildMissing(s, at, kpml, Pos(r, pre), i); }
      }
    }
  }

  lemma SubtreeSplits(at: Places, r: nat, pre: seq<nat>)
    requires Pos(r, pre) in at
    requires forall Q | Q in at && Below(Q, r, pre) && |Q.pre| > |pre| :: Q.pre[|pre|] < ENTRIES
    ensures Subtree(at, r, pre) == Branches(at, r, pre, 0, ENTRIES) + {at[Pos(r, pre)]}
  {
    forall Q | Q in at && Below(Q, r, pre) && |Q.pre| == |pre| ensures Q == Pos(r, pre) {
      assert Q.pre == pre;
    }
    assert Below(Pos(r, pre), r, pre);
  }

  lemma IndicesSmall(s: Tables, at: Places, kpml: nat, Q: Pos, k: nat)
    requires Forest(s, at, kpml) && Q in at && k < |Q.pre|
    ensures Q.pre[k] < ENTRIES
    ensures k == 0 && Q.root != kpml ==> Q.pre[0] < SHARED
  {
    Ancestors(s, at, kpml, Q, k + 1);
    var up := Q.pre[..k + 1];
    assert NodeOk(s, at, kpml, Pos(Q.root, up));
    Ancestors(s, at, kpml, Q, k);
    assert up[..|up| - 1] == Q.pre[..k];
    assert NodeOk(s, at, kpml, Pos(Q.root, Q.pre[..k]));
  }

  /** The pool gained exactly the pages of `freed`, each once. */
  ghost predicate Gained(pool: seq<nat>, pool': seq<nat>, freed: set<nat>) {
    multiset(pool') == multiset(pool) + multiset(freed)
  }

  ghost predicate Agrees(s: Tables, s0: Tables, pages: set<nat>) {
    forall t | t in pages :: t in s && t in s0 && s[t] == s0[t]
  }

  /** One turn of the loop in vmm_space_destroy_pml: the branch below entry i is freed. */
  method DestroyEntry(vmm: Vmm, level: nat, t: nat, i: nat, ghost s0: Tables, ghost r: nat, ghost pre: seq<nat>)
    requires 1 <= level <= 4 && |pre| == 4 - level && i < ENTRIES && (pre == [] && r != vmm.kpml ==> i < SHARED)
    requires Forest(s0, vmm.at, vmm.kpml) && Pos(r, pre) in vmm.at && vmm.at[Pos(r, pre)] == t
    requires t in vmm.tables && t in s0 && vmm.tables[t] == s0[t]
    requires Agrees(vmm.tables, s0, Subtree(vmm.at, r, pre + [i]))
    modifies vmm`tables, vmm`pool
    ensures vmm.tables == old(vmm.tables) - Subtree(vmm.at, r, pre + [i])
    ensures Gained(old(vmm.pool), vmm.pool, Subtree(vmm.at, r, pre + [i]))
    decreases level, 0
  {
    hide Forest, Subtree, Branches, Agrees, Gained;
    ghost var at, k := vmm.at, vmm.kpml;
    FullTable(s0, at, k, Pos(r, pre));
    GainedNothing(vmm.pool);
    NothingRemoved(vmm.tables);
    var child := vmm.GetPml(t, i);
    if child.Some? {
      if level == 1 {
        EmptyBranch(s0, at, k, r, pre, i);
        DestroyPml(vmm, 0, child.value, 0, ENTRIES, s0, r, pre + [i]);
      } else {
        OwnChild(s0, at, k, r, pre, i);
        DestroyPml(vmm, level - 1, child.value, 0, ENTRIES, s0, r, pre + [i]);
      }
    } else {
      EmptyBranch(s0, at, k, r, pre, i);
    }
  }

  /** vmm_space_destroy_pml. `s0` are the tables before the teardown began. */
  method DestroyPml(vmm: Vmm, level: nat, t: nat, lo: nat, hi: nat, ghost s0: Tables, ghost r: nat, ghost pre: seq<nat>)
    requires level <= 4 && |pre| == 4 - level
    requires Forest(s0, vmm.at, vmm.kpml)
    requires level > 0 ==> Pos(r, pre) in vmm.at && vmm.at[Pos(r, pre)] == t
    requires level > 0 ==> Agrees(vmm.tables, s0, Branches(vmm.at, r, pre, lo, hi) + {t})
    requires lo <= hi <= ENTRIES && (pre == [] && r != vmm.kpml ==> hi <= SHARED)
    modifies vmm`tables, vmm`pool
    ensures level == 0 ==> vmm.tables == old(vmm.tables) && vmm.pool == old(vmm.pool)
    ensures level > 0 ==> vmm.tables == old(vmm.tables) - (Branches(vmm.at, r, pre, lo, hi) + {t})
    ensures level > 0 ==> Gained(old(vmm.pool), vmm.pool, Branches(vmm.at, r, pre, lo, hi) + {t})
    decreases level, 1
  {
    hide Forest, Subtree, Branches, Agrees, Gained;
    if level < 1 { return; }
    ghost var at, k := vmm.at, vmm.kpml;
    ghost var T, pool0 := vmm.tables, vmm.pool;
    ghost var all := Branches(at, r, pre, lo, hi) + {t};
    var i := lo;
    NoBranches(at, r, pre, lo);
    NothingRemoved(T);
    GainedNothing(pool0);
    AgreesHere(T, s0, all, t);
    while i < hi
      invariant lo <= i <= hi
      invariant vmm.tables == T - Branches(at, r, pre, lo, i)
      invariant Gained(pool0, vmm.pool, Branches(at, r, pre, lo, i))
    {
      ghost var A, B := Branches(at, r, pre, lo, i), Subtree(at, r, pre + [i]);
      ghost var pool1 := vmm.pool;
      BranchesApart(s0, at, k, r, pre, lo, i);
      BranchStep(at, r, pre, lo, i);
      BranchStaysInside(at, r, pre, lo, i, hi);
      AgreesAfter(T, s0, all, A, B);
      DestroyEntry(vmm, level, t, i, s0, r, pre);
      TearStep(T, pool0, pool1, vmm.pool, A, B);
      i := i + 1;
    }
    BranchesApart(s0, at, k, r, pre, lo, hi);
    GainedOne(vmm.pool, t);
    TearStep(T, pool0, vmm.pool, vmm.pool + [t], Branches(at, r, pre, lo, hi), {t});
    vmm.pool := vmm.pool + [t];
    vmm.tables := vmm.tables - {t};
  }

  lemma FullTable(s: Tables, at: Places, kpml: nat, P: Pos)
    requires Forest(s, at, kpml) && P in at
    ensures at[P] in s && |s[at[P]]| == ENTRIES
  {
    assert NodeOk(s, at, kpml, P);
  }

  lemma NoBranches(at: Places, r: nat, pre: seq<nat>, lo: nat)
    ensures Branches(at, r, pre, lo, lo) == {}
  {
  }

  lemma NothingRemoved(s: Tables)
    ensures s - {} == s
  {
  }

  lemma GainedNothing(pool: seq<nat>)
    ensures Gained(pool, pool, {})
  {
  }

  lemma GainedOne(pool: seq<nat>, t: nat)
    ensures Gained(pool, pool + [t], {t})
  {
  }

  lemma TearStep(T: Tables, pool0: seq<nat>, pool1: seq<nat>, pool2: seq<nat>, A: set<nat>, B: set<nat>)
    requires A !! B && Gained(pool0, pool1, A) && Gained(pool1, pool2, B)
    ensures T - A - B == T - (A + B)
    ensures Gained(pool0, pool2, A + B)
  {
    assert multiset(A + B) == multiset(A) + multiset(B);
  }

  lemma AgreesHere(T: Tables, s0: Tables, pages: set<nat>, t: nat)
    requires Agrees(T, s0, pages) && t in pages
    ensures t in T && t in s0 && T[t] == s0[t]
  {
  }

  lemma AgreesAfter(T: Tables, s0: Tables, pages: set<nat>, A: set<nat>, B: set<nat>)
    requires Agrees(T, s0, pages) && B <= pages && A !! B
    ensures Agrees(T - A, s0, B)
  {
  }

  lemma BranchStaysInside(at: Places, r: nat, pre: seq<nat>, lo: nat, i: nat, hi: nat)
    requires lo <= i < hi
    ensures Subtree(at, r, pre + [i]) <= Branches(at, r, pre, lo, hi)
  {
    forall Q | Q in at && Below(Q, r, pre + [i]) ensures Below(Q, r, pre) && |Q.pre| > |pre| && Q.pre[|pre|] == i {
      assert (pre + [i])[|pre|] == i;
    }
  }

  lemma OwnChild(s: Tables, at: Places, kpml: nat, r: nat, pre: seq<nat>, i: nat)
    requires Forest(s, at, kpml) && Pos(r, pre) in at && |pre| < 3 && i < ENTRIES
    requires pre == [] && r != kpml ==> i < SHARED
    requires at[Pos(r, pre)] in s && i < |s[at[Pos(r, pre)]]| && s[at[Pos(r, pre)]][i].present
    ensures Pos(r, pre + [i]) in at && at[Pos(r, pre + [i])] == s[at[Pos(r, pre)]][i].frame
    ensures Subtree(at, r, pre + [i]) == Branches(at, r, pre + [i], 0, ENTRIES) + {at[Pos(r, pre + [i])]}
  {
    assert NodeOk(s, at, kpml, Pos(r, pre)) && EntryOk(s, at, kpml, Pos(r, pre), i);
    var c := pre + [i];
    forall Q | Q in at && Below(Q, r, c) && |Q.pre| > |c| ensures Q.pre[|c|] < ENTRIES {
      IndicesSmall(s, at, kpml, Q, |c|);
    }
    SubtreeSplits(at, r, c);
  }

  /** Pages of space r. */
  lemma SpacePages(s: Tables, at: Places, kpml: nat, r: nat)
    requires Forest(s, at, kpml) && Pos(r, []) in at && r != kpml
    ensures Subtree(at, r, []) == Branches(at, r, [], 0, 255) + {r}
    ensures Agrees(s, s, Subtree(at, r, []))
  {
    assert NodeOk(s, at, kpml, Pos(r, []));
    forall Q | Q in at && Below(Q, r, []) && |Q.pre| > 0 ensures 0 <= Q.pre[0] < SHARED {
      IndicesSmall(s, at, kpml, Q, 0);
    }
    forall Q | Q in at && Below(Q, r, []) && |Q.pre| == 0 ensures Q == Pos(r, []) {
      assert Q.pre == [];
    }
    assert Below(Pos(r, []), r, []);
    forall Q | Q in at ensures at[Q] in s { assert NodeOk(s, at, kpml, Q); }
  }

  ghost function Without(at: Places, r: nat): Places {
    map P | P in at && P.root != r :: at[P]
  }

  lemma DestroyKeepsForest(s: Tables, at: Places, kpml: nat, r: nat)
    requires Forest(s, at, kpml) && Pos(r, []) in at && r != kpml
    ensures Forest(s - Subtree(at, r, []), Without(at, r), kpml)
    ensures forall q: nat, p: seq<nat> | Mine(Without(at, r), q, p) ::
      Leaf(s - Subtree(at, r, []), q, p) == Leaf(s, q, p)
  {
    hide Leaf, Forest, Subtree;
    RemainingForest(s, at, kpml, r);
    forall q: nat, p: seq<nat> | Mine(Without(at, r), q, p)
      ensures Leaf(s - Subtree(at, r, []), q, p) == Leaf(s, q, p)
    {
      RemainingLeaf(s, at, kpml, r, q, p);
    }
  }

  lemma RemainingForest(s: Tables, at: Places, kpml: nat, r: nat)
    requires Forest(s, at, kpml) && Pos(r, []) in at && r != kpml
    ensures Forest(s - Subtree(at, r, []), Without(at, r), kpml)
  {
    var s', at' := s - Subtree(at, r, []), Without(at, r);
    forall P | P in at' ensures NodeOk(s', at', kpml, P) && s'[at[P]] == s[at[P]] {
      RemainingNode(s, at, kpml, r, P);
    }
    forall t | t in s' ensures t in at'.Values {
      var P :| P in at && at[P] == t;
      assert Below(P, P.root, []);
      assert at'[P] == t;
    }
  }

  lemma RemainingLeaf(s: Tables, at: Places, kpml: nat, r: nat, q: nat, p: seq<nat>)
    requires Forest(s, at, kpml) && Pos(r, []) in at && r != kpml && Mine(Without(at, r), q, p)
    requires Forest(s - Subtree(at, r, []), Without(at, r), kpml)
    ensures Leaf(s - Subtree(at, r, []), q, p) == Leaf(s, q, p)
  {
    var s', at' := s - Subtree(at, r, []), Without(at, r);
    LeafIsView(s, at, kpml, q, p);
    LeafIsView(s', at', kpml, q, p);
    assert NodeOk(s, at, kpml, Pos(q, []));
    var P := Pos(if OwnPath(kpml, q, p) then q else kpml, p[..3]);
    RemainingNode(s, at, kpml, r, Pos(q, []));
    if P in at {
      RemainingNode(s, at, kpml, r, P);
    }
  }

  /** A table of another space survives the teardown of space r untouched. */
  lemma RemainingNode(s: Tables, at: Places, kpml: nat, r: nat, P: Pos)
    requires Forest(s, at, kpml) && r != kpml && P in at && P.root != r
    ensures at[P] in s - Subtree(at, r, []) && (s - Subtree(at, r, []))[at[P]] == s[at[P]]
    ensures NodeOk(s - Subtree(at, r, []), Without(at, r), kpml, P)
  {
    var s', at' := s - Subtree(at, r, []), Without(at, r);
    assert NodeOk(s, at, kpml, P);
    forall Q | Q in at && Q.root != r ensures at[Q] in s' {
      assert NodeOk(s, at, kpml, Q);
    }
    forall i: nat | i < ENTRIES ensures EntryOk(s', at', kpml, P, i) {
      assert EntryOk(s, at, kpml, P, i);
    }
  }

  /** vmm_space_destroy: the root and every table page of the space are freed once; other spaces, the kernel's tables
      and mapped frames are not touched. */
  method SpaceDestroy(vmm: Vmm, r: nat)
    requires vmm.Valid() && Pos(r, []) in vmm.at && r != vmm.kpml
    modifies vmm
    ensures vmm.Valid()
    ensures Gained(old(vmm.pool), vmm.pool, Subtree(old(vmm.at), r, []))
    ensures vmm.tables == old(vmm.tables) - Subtree(old(vmm.at), r, [])
    ensures vmm.at == Without(old(vmm.at), r)
    ensures AllPages(vmm.tables, vmm.pool) == old(AllPages(vmm.tables, vmm.pool))
    ensures SameLeaves(old(vmm.tables), vmm.tables, vmm.at)
  {
    hide Forest, Subtree, Branches, Agrees, Gained, PoolOk, Zeroed, AllPages, Leaf;
    ghost var s0, p0, freed := vmm.tables, vmm.pool, Subtree(vmm.at, r, []);
    SpacePages(s0, vmm.at, vmm.kpml, r);
    RootPage(s0, vmm.at, vmm.kpml, r);
    DestroyPml(vmm, 4, r, 0, SHARED, s0, r, []);
    DestroyKeepsForest(s0, vmm.at, vmm.kpml, r);
    PoolAfter(s0, p0, vmm.pool, freed);
    vmm.at := Without(vmm.at, r);
  }

  lemma PoolAfter(s: Tables, pool: seq<nat>, pool': seq<nat>, freed: set<nat>)
    requires PoolOk(s, pool) && Zeroed(s) && Gained(pool, pool', freed) && Agrees(s, s, freed)
    ensures PoolOk(s - freed, pool') && Zeroed(s - freed) && AllPages(s - freed, pool') == AllPages(s, pool)
  {
    forall f | f in pool' ensures f !in s - freed {
      assert f in multiset(pool');
    }
    forall f ensures multiset(pool)[f] <= 1 {
      OnceIfDistinct(pool, f);
    }
    forall f ensures multiset(pool')[f] <= 1 {
      assert f in freed ==> f in s;
      assert multiset(pool)[f] > 0 ==> f in pool;
    }
    DistinctIfOnce(pool');
    assert freed <= s.Keys;
    assert (s - freed).Keys == s.Keys - freed;
    assert multiset(s.Keys) == multiset(s.Keys - freed) + multiset(freed);
  }

  lemma {:induction false} OnceIfDistinct(q: seq<nat>, f: nat)
    requires forall i, j | 0 <= i < j < |q| :: q[i] != q[j]
    ensures multiset(q)[f] <= 1
  {
    if q != [] {
      assert q == [q[0]] + q[1..];
      OnceIfDistinct(q[1..], f);
      if f == q[0] { assert f !in q[1..]; }
    }
  }

  lemma DistinctIfOnce(q: seq<nat>)
    requires forall f :: multiset(q)[f] <= 1
    ensures forall i, j | 0 <= i < j < |q| :: q[i] != q[j]
  {
    forall i, j | 0 <= i < j < |q| ensures q[i] != q[j] {
      assert q == q[..j] + [q[j]] + q[j + 1..];
      assert multiset(q) == multiset(q[..j]) + multiset([q[j]]) + multiset(q[j + 1..]);
      assert q[..j][i] == q[i];
      assert multiset(q)[q[i]] <= 1;
    }
  }
}
