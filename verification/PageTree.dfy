/** Four-level page tables (kernel/x86_64/vmm.c, paging.h; Intel SDM volume 3A, section 4.5) as pure values:
    table pages by frame number, the walk the hardware performs, and the positions that make them a forest. */
module PageTree {
  import opened Basics

  const ENTRIES: nat := 512
  const PAGE: nat := 4096
  /** First PML4 index of the half shared with the kernel. */
  const SHARED: nat := 255
  /** Number of virtual pages: 2^36. */
  const PAGES: nat := ENTRIES * ENTRIES * ENTRIES * ENTRIES

  datatype Flags = Flags(writable: bool, user: bool, global: bool, writeThrough: bool)

  datatype Entry = Entry(present: bool, flags: Flags, frame: nat)

  const CLEAN := Entry(false, Flags(false, false, false, false), 0)

  /** pml_make_entry: always present, low twelve address bits dropped. */
  function MakeEntry(physical: nat, flags: Flags): Entry {
    Entry(true, flags, physical / PAGE)
  }

  type Tables = map<nat, seq<Entry>>

  // ----- Addresses -----------------------------------------------------------------------------

  /** Virtual page number; bits above 47 do not take part in the walk. */
  function Vpn(virt: nat): (r: nat)
    ensures r < PAGES
  {
    virt / PAGE % PAGES
  }

  /** PMLX_GET_INDEX for the four levels, top first. */
  function PathOf(virt: nat): (r: seq<nat>)
    ensures |r| == 4 && forall k | 0 <= k < 4 :: r[k] < ENTRIES
  {
    [virt / (PAGE * ENTRIES * ENTRIES * ENTRIES) % ENTRIES, virt / (PAGE * ENTRIES * ENTRIES) % ENTRIES,
     virt / (PAGE * ENTRIES) % ENTRIES, virt / PAGE % ENTRIES]
  }

  /** The indices are bits 47-39, 38-30, 29-21 and 20-12 of the address. */
  lemma PathIsBits(virt: nat)
    ensures PathOf(virt)
      == [virt / 0x80_0000_0000 % 512, virt / 0x4000_0000 % 512, virt / 0x20_0000 % 512, virt / 0x1000 % 512]
  {
  }

  lemma SplitDigits(n: nat)
    ensures n % PAGES
      == ((n / (ENTRIES * ENTRIES * ENTRIES) % ENTRIES * ENTRIES + n / (ENTRIES * ENTRIES) % ENTRIES) * ENTRIES
                          + n / ENTRIES % ENTRIES) * ENTRIES + n % ENTRIES
  {
    var a := n / ENTRIES;
    var b := a / ENTRIES;
    var c := b / ENTRIES;
    DivTwo(n);
    DivThree(n);
    Digit(n, a);
    Digit(a, b);
    Digit(b, c);
    Digit(c, c / ENTRIES);
    RestOf(n, c / ENTRIES, ((c % ENTRIES * ENTRIES + b % ENTRIES) * ENTRIES + a % ENTRIES) * ENTRIES + n % ENTRIES);
  }

  lemma Digit(n: nat, q: nat)
    requires q == n / ENTRIES
    ensures n == q * ENTRIES + n % ENTRIES && n % ENTRIES < ENTRIES
  {
  }

  lemma RestOf(n: nat, q: nat, r: nat)
    requires n == q * PAGES + r && r < PAGES
    ensures n % PAGES == r
  {
  }

  lemma DivTwo(n: nat)
    ensures n / (ENTRIES * ENTRIES) == n / ENTRIES / ENTRIES
  {
  }

  lemma DivThree(n: nat)
    ensures n / (ENTRIES * ENTRIES * ENTRIES) == n / (ENTRIES * ENTRIES) / ENTRIES
  {
  }

  lemma PageDivOne(v: nat)
    ensures v / (PAGE * ENTRIES) == v / PAGE / ENTRIES
  {
  }

  lemma PageDivTwo(v: nat)
    ensures v / (PAGE * ENTRIES * ENTRIES) == v / PAGE / (ENTRIES * ENTRIES)
  {
  }

  lemma PageDivThree(v: nat)
    ensures v / (PAGE * ENTRIES * ENTRIES * ENTRIES) == v / PAGE / (ENTRIES * ENTRIES * ENTRIES)
  {
  }

  lemma SameDigit(a: nat, d: nat, b: nat, e: nat)
    requires a * ENTRIES + d == b * ENTRIES + e && d < ENTRIES && e < ENTRIES
    ensures a == b && d == e
  {
  }

  /** The page number written from a path. */
  function PageOf(p: seq<nat>): nat
    requires |p| == 4
  {
    ((p[0] * ENTRIES + p[1]) * ENTRIES + p[2]) * ENTRIES + p[3]
  }

  lemma VpnOfPath(v: nat)
    ensures Vpn(v) == PageOf(PathOf(v))
  {
    SplitDigits(v / PAGE);
    PathDigits(v);
  }

  /** The four indices identify the page, and nothing but the page. */
  lemma PathIsPage(v: nat, w: nat)
    ensures PathOf(v) == PathOf(w) <==> Vpn(v) == Vpn(w)
  {
    VpnOfPath(v);
    VpnOfPath(w);
    if Vpn(v) == Vpn(w) {
      SamePage(PathOf(v), PathOf(w));
    }
  }

  lemma SamePage(p: seq<nat>, q: seq<nat>)
    requires |p| == |q| == 4 && PageOf(p) == PageOf(q)
    requires forall k | 0 <= k < 4 :: p[k] < ENTRIES && q[k] < ENTRIES
    ensures p == q
  {
    SameDigit((p[0] * ENTRIES + p[1]) * ENTRIES + p[2], p[3], (q[0] * ENTRIES + q[1]) * ENTRIES + q[2], q[3]);
    SameDigit(p[0] * ENTRIES + p[1], p[2], q[0] * ENTRIES + q[1], q[2]);
    SameDigit(p[0], p[1], q[0], q[1]);
  }

  lemma PathDigits(v: nat)
    ensures var n := v / PAGE;
            PathOf(v) == [n / (ENTRIES * ENTRIES * ENTRIES) % ENTRIES, n / (ENTRIES * ENTRIES) % ENTRIES,
              n / ENTRIES % ENTRIES, n % ENTRIES]
  {
    var n := v / PAGE;
    PageDivOne(v);
    PageDivTwo(v);
    PageDivThree(v);
  }

  // ----- The walk ------------------------------------------------------------------------------

  /** The table reached from t by following `pre`. */
  function TableAt(tables: Tables, t: nat, pre: seq<nat>): (r: Option<nat>)
  {
    if pre == [] then if t in tables then Some(t) else None
    else
      var i := pre[|pre| - 1];
      match TableAt(tables, t, pre[..|pre| - 1])
      case None => None
      case Some(p) =>
        if p in tables && i < |tables[p]| && tables[p][i].present && tables[p][i].frame in tables
        then Some(tables[p][i].frame) else None
  }

  /** The leaf entry for a four-index path, when present. */
  function Leaf(tables: Tables, root: nat, path: seq<nat>): (r: Option<Entry>)
    requires |path| == 4
  {
    match TableAt(tables, root, path[..3])
    case None => None
    case Some(t) =>
      if t in tables && path[3] < |tables[t]| && tables[t][path[3]].present then Some(tables[t][path[3]]) else None
  }

  /** The flat page map the tables stand for. */
  function Translate(tables: Tables, root: nat, virt: nat): (r: Option<Entry>) {
    Leaf(tables, root, PathOf(virt))
  }

  // ----- Positions -----------------------------------------------------------------------------

  /** Where a table page sits: the space it belongs to and the indices leading to it. */
  datatype Pos = Pos(root: nat, pre: seq<nat>)

  type Places = map<Pos, nat>

  /** Entry i of the table at P is the space's own (not a copy of a kernel PML4 entry). */
  ghost predicate OwnEntry(kpml: nat, P: Pos, i: nat) {
    P.pre != [] || P.root == kpml || i < SHARED
  }

  /** Flags of an entry above the leaves: they restrict nothing, and the global bit is not available in the PML4. */
  predicate Unrestricted(P: Pos, flags: Flags) {
    flags.writable && flags.user && (P.pre == [] ==> !flags.global)
  }

  /** A present entry above the leaves refers to a table page in its place, and it restricts nothing. */
  ghost predicate EntryOk(tables: Tables, at: Places, kpml: nat, P: Pos, i: nat) {
    && P in at && at[P] in tables && i < |tables[at[P]]|
    && var e := tables[at[P]][i];
    |P.pre| < 3 && e.present ==>
      && e.flags.writable && e.flags.user && (P.pre == [] ==> !e.flags.global)
      && (OwnEntry(kpml, P, i) ==> Pos(P.root, P.pre + [i]) in at && at[Pos(P.root, P.pre + [i])] == e.frame)
      && (!OwnEntry(kpml, P, i) ==> Pos(kpml, [i]) in at && at[Pos(kpml, [i])] == e.frame)
  }

  /** The parent of P refers to P's table page. */
  ghost predicate Referenced(tables: Tables, at: Places, kpml: nat, P: Pos) {
    if P.pre == [] then P in at && at[P] == P.root
    else
      var i := P.pre[|P.pre| - 1];
      var up := Pos(P.root, P.pre[..|P.pre| - 1]);
      && P in at && up in at && at[up] in tables && i < |tables[at[up]]| && OwnEntry(kpml, up, i)
      && tables[at[up]][i].present && tables[at[up]][i].frame == at[P]
  }

  ghost predicate NodeOk(tables: Tables, at: Places, kpml: nat, P: Pos) {
    && P in at
    && |P.pre| <= 3
    && at[P] in tables
    && |tables[at[P]]| == ENTRIES
    && Referenced(tables, at, kpml, P)
    && forall i: nat {:trigger EntryOk(tables, at, kpml, P, i)} | i < ENTRIES :: EntryOk(tables, at, kpml, P, i)
  }

  /** Every table page has one position, so no table is shared below the user half: the tables form a forest. */
  ghost predicate Forest(tables: Tables, at: Places, kpml: nat) {
    && Pos(kpml, []) in at
    && (forall P {:trigger NodeOk(tables, at, kpml, P)} | P in at :: NodeOk(tables, at, kpml, P))
    && (forall P, Q {:trigger at[P], at[Q]} | P in at && Q in at && P != Q :: at[P] != at[Q])
    && (forall t | t in tables :: t in at.Values)
  }

  ghost predicate OwnPath(kpml: nat, root: nat, pre: seq<nat>) {
    root == kpml || pre == [] || pre[0] < SHARED
  }

  ghost predicate IsPath(pre: seq<nat>) {
    |pre| <= 4 && forall k | 0 <= k < |pre| :: pre[k] < ENTRIES
  }

  /** In the half a space owns, walking and positions agree. */
  lemma {:induction false} WalkIsPosition(tables: Tables, at: Places, kpml: nat, root: nat, pre: seq<nat>)
    requires Forest(tables, at, kpml) && Pos(root, []) in at
    requires |pre| <= 3 && IsPath(pre) && OwnPath(kpml, root, pre)
    ensures TableAt(tables, root, pre) == if Pos(root, pre) in at then Some(at[Pos(root, pre)]) else None
  {
    if pre == [] {
      assert NodeOk(tables, at, kpml, Pos(root, []));
    } else {
      var up, i := pre[..|pre| - 1], pre[|pre| - 1];
      OwnUp(kpml, root, pre);
      WalkIsPosition(tables, at, kpml, root, up);
      WalkStep(tables, at, kpml, root, pre);
      hide Forest, OwnPath, IsPath;
    }
  }

  lemma OwnUp(kpml: nat, root: nat, pre: seq<nat>)
    requires 0 < |pre| <= 3 && IsPath(pre) && OwnPath(kpml, root, pre)
    ensures IsPath(pre[..|pre| - 1]) && OwnPath(kpml, root, pre[..|pre| - 1])
  {
  }

  /** A position is taken exactly if its parent is and the parent's entry is present, and then by the page it names. */
  lemma WalkStep(tables: Tables, at: Places, kpml: nat, root: nat, pre: seq<nat>)
    requires Forest(tables, at, kpml) && 0 < |pre| <= 3 && IsPath(pre) && OwnPath(kpml, root, pre)
    ensures var U, P, i := Pos(root, pre[..|pre| - 1]), Pos(root, pre), pre[|pre| - 1];
            && (P in at ==> U in at)
            && (U in at ==> at[U] in tables && i < |tables[at[U]]|)
            && (U in at ==> (P in at <==> tables[at[U]][i].present))
            && (P in at ==> at[P] == tables[at[U]][i].frame && at[P] in tables)
  {
    var U, P, i := Pos(root, pre[..|pre| - 1]), Pos(root, pre), pre[|pre| - 1];
    assert U.pre + [i] == pre;
    if P in at {
      assert NodeOk(tables, at, kpml, P);
    }
    if U in at {
      assert NodeOk(tables, at, kpml, U);
      assert EntryOk(tables, at, kpml, U, i);
    }
  }

  /** In the shared half, a space either has no entry or sees the kernel's own tables. */
  lemma {:induction false} WalkIsShared(tables: Tables, at: Places, kpml: nat, root: nat, pre: seq<nat>)
    requires Forest(tables, at, kpml) && Pos(root, []) in at && root != kpml
    requires 1 <= |pre| <= 3 && IsPath(pre) && pre[0] >= SHARED
    requires root in tables && |tables[root]| == ENTRIES
    ensures TableAt(tables, root, pre) == if tables[root][pre[0]].present then TableAt(tables, kpml, pre) else None
  {
    assert NodeOk(tables, at, kpml, Pos(root, [])) && NodeOk(tables, at, kpml, Pos(kpml, []));
    if |pre| == 1 {
      assert pre[..0] == [] && pre == [pre[0]];
      assert EntryOk(tables, at, kpml, Pos(root, []), pre[0]);
      WalkIsPosition(tables, at, kpml, kpml, pre);
      if Pos(kpml, pre) in at { assert NodeOk(tables, at, kpml, Pos(kpml, pre)); }
    } else {
      WalkIsShared(tables, at, kpml, root, pre[..|pre| - 1]);
    }
  }

  // ----- Access rights -------------------------------------------------------------------------

  /** What the hardware lets a process do with a page. */
  datatype Access = Access(write: bool, user: bool)

  /** The rights that the entries along a walk leave: each level can only take away (section 4.6 of the SDM). */
  function Along(tables: Tables, t: nat, pre: seq<nat>): Access {
    if pre == [] then Access(true, true)
    else
      var up, i := pre[..|pre| - 1], pre[|pre| - 1];
      match TableAt(tables, t, up)
      case None => Access(false, false)
      case Some(p) =>
        var a := Along(tables, t, up);
        if p in tables && i < |tables[p]| && tables[p][i].present
        then Access(a.write && tables[p][i].flags.writable, a.user && tables[p][i].flags.user)
        else Access(false, false)
  }

  /** The effective rights of a page, over all four levels; None if it does not translate. */
  function Rights(tables: Tables, root: nat, path: seq<nat>): Option<Access>
    requires |path| == 4
  {
    match Leaf(tables, root, path)
    case None => None
    case Some(e) =>
      var a := Along(tables, root, path[..3]);
      Some(Access(a.write && e.flags.writable, a.user && e.flags.user))
  }

  /** Every table a walk goes through has a place at that depth. */
  lemma WalkInPlaces(tables: Tables, at: Places, kpml: nat, root: nat, pre: seq<nat>) returns (P: Pos)
    requires Forest(tables, at, kpml) && Pos(root, []) in at && |pre| <= 3 && IsPath(pre)
    requires TableAt(tables, root, pre).Some?
    ensures P in at && at[P] == TableAt(tables, root, pre).value && |P.pre| == |pre|
  {
    if OwnPath(kpml, root, pre) {
      WalkIsPosition(tables, at, kpml, root, pre);
      P := Pos(root, pre);
    } else {
      assert NodeOk(tables, at, kpml, Pos(root, []));
      WalkIsShared(tables, at, kpml, root, pre);
      WalkIsPosition(tables, at, kpml, kpml, pre);
      P := Pos(kpml, pre);
    }
  }

  lemma {:induction false} AlongIsOpen(tables: Tables, at: Places, kpml: nat, root: nat, pre: seq<nat>)
    requires Forest(tables, at, kpml) && Pos(root, []) in at && |pre| <= 3 && IsPath(pre)
    requires TableAt(tables, root, pre).Some?
    ensures Along(tables, root, pre) == Access(true, true)
  {
    if pre != [] {
      var up, i := pre[..|pre| - 1], pre[|pre| - 1];
      AlongIsOpen(tables, at, kpml, root, up);
      var P := WalkInPlaces(tables, at, kpml, root, up);
      assert NodeOk(tables, at, kpml, P) && EntryOk(tables, at, kpml, P, i);
    }
  }

  /** A page can be used as its leaf entry says: no upper level takes anything away. */
  lemma RightsAreLeafs(tables: Tables, at: Places, kpml: nat, root: nat, path: seq<nat>)
    requires Forest(tables, at, kpml) && Pos(root, []) in at && |path| == 4 && IsPath(path)
    ensures Leaf(tables, root, path).Some? ==>
      var e := Leaf(tables, root, path).value;
      Rights(tables, root, path) == Some(Access(e.flags.writable, e.flags.user))
  {
    if TableAt(tables, root, path[..3]).Some? {
      AlongIsOpen(tables, at, kpml, root, path[..3]);
    }
  }

  // ----- The flat view -------------------------------------------------------------------------

  ghost function LeafPos(tables: Tables, at: Places, P: Pos, i: nat): Option<Entry> {
    if P in at && at[P] in tables && i < |tables[at[P]]| && tables[at[P]][i].present
    then Some(tables[at[P]][i])
    else None
  }

  ghost function View(tables: Tables, at: Places, kpml: nat, root: nat, path: seq<nat>): Option<Entry>
    requires |path| == 4
  {
    if OwnPath(kpml, root, path) then LeafPos(tables, at, Pos(root, path[..3]), path[3])
    else if root in tables && path[0] < |tables[root]| && tables[root][path[0]].present
    then LeafPos(tables, at, Pos(kpml, path[..3]), path[3])
    else None
  }

  /** The hardware walk and the view by positions give the same translation. */
  lemma LeafIsView(tables: Tables, at: Places, kpml: nat, root: nat, path: seq<nat>)
    requires Forest(tables, at, kpml) && Pos(root, []) in at && |path| == 4 && IsPath(path)
    ensures Leaf(tables, root, path) == View(tables, at, kpml, root, path)
  {
    var pre := path[..3];
    assert pre[0] == path[0];
    if OwnPath(kpml, root, path) {
      WalkIsPosition(tables, at, kpml, root, pre);
    } else {
      assert NodeOk(tables, at, kpml, Pos(root, []));
      WalkIsShared(tables, at, kpml, root, pre);
      WalkIsPosition(tables, at, kpml, kpml, pre);
    }
  }

  // ----- Adding a table ------------------------------------------------------------------------

  function Blank(): (r: seq<Entry>)
    ensures |r| == ENTRIES && forall i | 0 <= i < ENTRIES :: r[i] == CLEAN
  {
    seq(ENTRIES, i => CLEAN)
  }

  /** A fresh zeroed table f hung under entry i of table p. */
  function AddTable(tables: Tables, p: nat, i: nat, f: nat, e: Entry): Tables
    requires p in tables && i < |tables[p]|
  {
    tables[p := tables[p][i := e]][f := Blank()]
  }

  lemma NewNodeOk(tables: Tables, at: Places, kpml: nat, P: Pos, i: nat, f: nat, e: Entry)
    requires Forest(tables, at, kpml) && P in at && |P.pre| < 3 && i < ENTRIES && OwnEntry(kpml, P, i)
    requires at[P] in tables && |tables[at[P]]| == ENTRIES && f !in tables && e.present && e.frame == f
      && Unrestricted(P, e.flags)
    ensures NodeOk(AddTable(tables, at[P], i, f, e), at[Pos(P.root, P.pre + [i]) := f], kpml, Pos(P.root, P.pre + [i]))
  {
    var C := Pos(P.root, P.pre + [i]);
    var tables', at' := AddTable(tables, at[P], i, f, e), at[C := f];
    assert C.pre[..|C.pre| - 1] == P.pre && C != P;
    forall j: nat | j < ENTRIES ensures EntryOk(tables', at', kpml, C, j) {
    }
  }

  lemma ChildMissing(tables: Tables, at: Places, kpml: nat, P: Pos, i: nat)
    requires Forest(tables, at, kpml) && P in at && i < ENTRIES
    requires at[P] in tables && i < |tables[at[P]]| && !tables[at[P]][i].present
    ensures Pos(P.root, P.pre + [i]) !in at
  {
    var C := Pos(P.root, P.pre + [i]);
    assert C.pre[..|C.pre| - 1] == P.pre;
    assert C in at ==> NodeOk(tables, at, kpml, C);
  }

  lemma OldNodeOk(tables: Tables, at: Places, kpml: nat, P: Pos, i: nat, f: nat, e: Entry, Q: Pos)
    requires Forest(tables, at, kpml) && P in at && |P.pre| < 3 && i < ENTRIES && OwnEntry(kpml, P, i)
    requires at[P] in tables && |tables[at[P]]| == ENTRIES && !tables[at[P]][i].present
    requires f !in tables && e.present && e.frame == f && Unrestricted(P, e.flags)
    requires Q in at && Pos(P.root, P.pre + [i]) !in at
    ensures NodeOk(AddTable(tables, at[P], i, f, e), at[Pos(P.root, P.pre + [i]) := f], kpml, Q)
  {
    var C := Pos(P.root, P.pre + [i]);
    var tables', at' := AddTable(tables, at[P], i, f, e), at[C := f];
    assert NodeOk(tables, at, kpml, Q);
    assert at[Q] != f;
    if Q.pre != [] {
      assert NodeOk(tables, at, kpml, Pos(Q.root, Q.pre[..|Q.pre| - 1]));
    }
    forall j: nat | j < ENTRIES ensures EntryOk(tables', at', kpml, Q, j) {
      assert EntryOk(tables, at, kpml, Q, j);
      assert NodeOk(tables, at, kpml, P);
    }
  }

  /** Hanging a fresh zeroed table under an absent entry keeps the forest. */
  lemma AddTableKeepsForest(tables: Tables, at: Places, kpml: nat, P: Pos, i: nat, f: nat, e: Entry)
    requires Forest(tables, at, kpml) && P in at && |P.pre| < 3 && i < ENTRIES && OwnEntry(kpml, P, i)
    requires at[P] in tables && |tables[at[P]]| == ENTRIES && !tables[at[P]][i].present
    requires f !in tables && e.present && e.frame == f && Unrestricted(P, e.flags)
    ensures Pos(P.root, P.pre + [i]) !in at
    ensures Forest(AddTable(tables, at[P], i, f, e), at[Pos(P.root, P.pre + [i]) := f], kpml)
  {
    var C := Pos(P.root, P.pre + [i]);
    var tables', at' := AddTable(tables, at[P], i, f, e), at[C := f];
    ChildMissing(tables, at, kpml, P, i);
    forall Q | Q in at' ensures NodeOk(tables', at', kpml, Q) {
      if Q == C { NewNodeOk(tables, at, kpml, P, i, f, e); }
      else { OldNodeOk(tables, at, kpml, P, i, f, e, Q); }
    }
    forall Q | Q in at ensures at[Q] != f && at'[Q] == at[Q] {
      assert NodeOk(tables, at, kpml, Q);
    }
    forall t | t in tables' ensures t in at'.Values {
      if t == f {
        assert at'[C] == f;
      } else {
        assert t in at.Values;
        var Q :| Q in at && at[Q] == t;
        assert at'[Q] == t;
      }
    }
  }

  lemma AddTableKeepsView(tables: Tables, at: Places, kpml: nat, P: Pos, i: nat, f: nat, e: Entry, root: nat,
                          path: seq<nat>)
    requires Forest(tables, at, kpml) && P in at && |P.pre| < 3 && i < ENTRIES && OwnEntry(kpml, P, i)
    requires at[P] in tables && |tables[at[P]]| == ENTRIES && !tables[at[P]][i].present
    requires f !in tables && e.present && e.frame == f && Unrestricted(P, e.flags)
    requires Pos(root, []) in at && |path| == 4 && IsPath(path)
    ensures View(AddTable(tables, at[P], i, f, e), at[Pos(P.root, P.pre + [i]) := f], kpml, root, path)
         == View(tables, at, kpml, root, path)
  {
    ChildMissing(tables, at, kpml, P, i);
    assert NodeOk(tables, at, kpml, Pos(root, []));
    var Q := Pos(if OwnPath(kpml, root, path) then root else kpml, path[..3]);
    assert |Q.pre| == 3;
    if Q in at {
      assert NodeOk(tables, at, kpml, Q);
      assert Q != P && at[Q] != at[P] && at[Q] != f;
    }
    if !OwnPath(kpml, root, path) && at[P] == root {
      assert at[Pos(root, [])] == root;
      assert P == Pos(root, []);
    }
  }

  // ----- Writing a leaf entry ------------------------------------------------------------------

  function SetEntry(tables: Tables, t: nat, i: nat, e: Entry): Tables
    requires t in tables && i < |tables[t]|
  {
    tables[t := tables[t][i := e]]
  }

  lemma SetLeafKeepsForest(tables: Tables, at: Places, kpml: nat, P: Pos, i: nat, e: Entry)
    requires Forest(tables, at, kpml) && P in at && |P.pre| == 3 && i < ENTRIES
    requires at[P] in tables && |tables[at[P]]| == ENTRIES
    ensures Forest(SetEntry(tables, at[P], i, e), at, kpml)
  {
    var tables' := SetEntry(tables, at[P], i, e);
    forall Q | Q in at ensures NodeOk(tables', at, kpml, Q) {
      assert NodeOk(tables, at, kpml, Q);
      if Q.pre != [] {
        var up := Pos(Q.root, Q.pre[..|Q.pre| - 1]);
        assert up != P && at[up] != at[P];
      }
      forall j: nat | j < ENTRIES ensures EntryOk(tables', at, kpml, Q, j) {
        assert EntryOk(tables, at, kpml, Q, j);
        if Q != P { assert at[Q] != at[P]; }
      }
    }
  }

  /** Space `root` translates `path` through entry i of the leaf table at P. */
  ghost predicate Reaches(tables: Tables, kpml: nat, root: nat, path: seq<nat>, P: Pos, i: nat)
    requires |path| == 4
  {
    && path == P.pre + [i]
    && if OwnPath(kpml, root, path) then P.root == root
       else P.root == kpml && root in tables && path[0] < |tables[root]| && tables[root][path[0]].present
  }

  function Present(e: Entry): Option<Entry> {
    if e.present then Some(e) else None
  }

  /** Writing entry i of the leaf table at P changes the translation of that one page only, and only in the spaces
      that reach P's table: its own space, and for a kernel table every space that shares it. */
  lemma SetLeafView(tables: Tables, at: Places, kpml: nat, P: Pos, i: nat, e: Entry, root: nat, path: seq<nat>)
    requires Forest(tables, at, kpml) && P in at && |P.pre| == 3 && i < ENTRIES
    requires at[P] in tables && |tables[at[P]]| == ENTRIES
    requires Pos(root, []) in at && |path| == 4 && IsPath(path)
    ensures View(SetEntry(tables, at[P], i, e), at, kpml, root, path)
         == if Reaches(tables, kpml, root, path, P, i) then Present(e) else View(tables, at, kpml, root, path)
  {
    assert NodeOk(tables, at, kpml, Pos(root, []));
    assert at[Pos(root, [])] == root && Pos(root, []) != P;
    assert root != at[P];
    var own := OwnPath(kpml, root, path);
    var Q := Pos(if own then root else kpml, path[..3]);
    assert path == Q.pre + [path[3]];
    if Q in at {
      assert NodeOk(tables, at, kpml, Q);
      if Q != P { assert at[Q] != at[P]; }
    }
  }
}
