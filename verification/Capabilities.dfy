/** Reference counting in the capability kernel (kernel/object.c, domain.c, parcel.c, channel.c) as pure values:
    who holds references to whom, and the invariant that ties the counters to the holders. */
module Capabilities {
  import opened Basics
  import opened Containers

  /** BR_MSG_ARG_COUNT and IPC_CHANNEL_SIZE. */
  const ARGS: nat := 5
  const CHANNEL_SIZE: nat := 256

  datatype Kind = Memory | Domain | Space | Task

  /** A type filter for look-ups; Any is BR_OBJECT_ANY. */
  datatype Filter = Any | Only(kind: Kind)

  predicate Matches(f: Filter, k: Kind) {
    f.Any? || f.kind == k
  }

  /** A message: argument i is a handle when i is flagged. */
  datatype Msg = Msg(flags: set<nat>, args: seq<nat>, info: nat)

  /** A message in flight with the objects its handles named. */
  datatype Parcel = Parcel(msg: Msg, objs: seq<Option<nat>>)

  /** A kernel object. `holds` are the references its own fields keep (a task: its space and its domain), `slots` the
      handle table of a domain, `ring` the channel of a task. */
  datatype Obj = Obj(kind: Kind, refs: int, holds: seq<nat>, slots: Slots, ring: RingState<Parcel>) {
    /** The messages in the channel, oldest first. */
    ghost function Queue(): seq<Parcel> {
      Contents(ring)
    }
  }

  const NO_SLOTS := Slots([], [])
  const NO_PARCEL := Parcel(Msg({}, [], 0), [])

  function NoRing(): RingState<Parcel> {
    RingState(seq(CHANNEL_SIZE, _ => NO_PARCEL), 0, 0, 0)
  }

  lemma NoRingIsEmpty()
    ensures RingOk(NoRing()) && |NoRing().data| == CHANNEL_SIZE && Contents(NoRing()) == []
  {
  }

  // ----- Holders -------------------------------------------------------------------------------

  ghost function ObjsRefs(objs: seq<Option<nat>>): multiset<nat> {
    if objs == [] then multiset{}
    else ObjsRefs(objs[..|objs| - 1]) + (match objs[|objs| - 1] case None => multiset{} case Some(o) => multiset{o})
  }

  ghost function QueueRefs(q: seq<Parcel>): multiset<nat> {
    if q == [] then multiset{} else ObjsRefs(q[0].objs) + QueueRefs(q[1..])
  }

  lemma {:induction false} QueueRefsAppend(q: seq<Parcel>, p: Parcel)
    ensures QueueRefs(q + [p]) == QueueRefs(q) + ObjsRefs(p.objs)
  {
    if q == [] {
      assert [p][1..] == [];
      assert q + [p] == [p];
    } else {
      QueueRefsAppend(q[1..], p);
      assert (q + [p])[1..] == q[1..] + [p];
    }
  }

  /** References an object keeps to others. */
  ghost function Out(ob: Obj): multiset<nat>
    requires SlotsOk(ob.slots)
  {
    multiset(ob.holds) + SlotRefs(ob.slots) + QueueRefs(ob.Queue())
  }

  ghost predicate AllSlotsOk(objs: seq<Obj>) {
    forall i | 0 <= i < |objs| :: SlotsOk(objs[i].slots)
  }

  /** All references kept by objects. */
  ghost function Total(objs: seq<Obj>): multiset<nat>
    requires AllSlotsOk(objs)
  {
    if objs == [] then multiset{} else Total(objs[..|objs| - 1]) + Out(objs[|objs| - 1])
  }

  lemma Regroup(a: multiset<nat>, b: multiset<nat>, c: multiset<nat>, d: multiset<nat>, x: multiset<nat>)
    requires a + b == c + d
    ensures a + x + b == c + x + d
  {
    assert a + x + b == a + b + x;
    assert c + x + d == c + d + x;
  }

  lemma Cancel(a: multiset<nat>, b: multiset<nat>, x: multiset<nat>)
    requires a + x == b + x
    ensures a == b
  {
    assert forall o :: (a + x)[o] == a[o] + x[o] && (b + x)[o] == b[o] + x[o];
  }

  lemma {:induction false} TotalUpdate(objs: seq<Obj>, i: nat, ob: Obj)
    requires AllSlotsOk(objs) && i < |objs| && SlotsOk(ob.slots)
    ensures AllSlotsOk(objs[i := ob])
    ensures Total(objs[i := ob]) + Out(objs[i]) == Total(objs) + Out(ob)
    decreases |objs|
  {
    hide Out;
    var n := |objs| - 1;
    if i == n {
      assert objs[i := ob][..n] == objs[..n];
    } else {
      TotalUpdate(objs[..n], i, ob);
      assert objs[i := ob][..n] == objs[..n][i := ob];
      Regroup(Total(objs[..n][i := ob]), Out(objs[i]), Total(objs[..n]), Out(ob), Out(objs[n]));
    }
  }

  lemma TotalAppend(objs: seq<Obj>, ob: Obj)
    requires AllSlotsOk(objs) && SlotsOk(ob.slots)
    ensures AllSlotsOk(objs + [ob]) && Total(objs + [ob]) == Total(objs) + Out(ob)
  {
    assert (objs + [ob])[..|objs|] == objs;
  }

  // ----- Invariant -----------------------------------------------------------------------------

  /** `local` are references in the hands of running kernel code, `leaked` those lost with a destroyed channel,
      `destroyed` the objects whose destructor has run, in order. */
  datatype State = State(objs: seq<Obj>, global: seq<nat>, local: multiset<nat>, leaked: multiset<nat>,
    destroyed: seq<nat>)

  ghost function Holders(s: State): multiset<nat>
    requires AllSlotsOk(s.objs)
  {
    Total(s.objs) + s.local + s.leaked
  }

  ghost predicate ParcelOk(p: Parcel) {
    |p.objs| == ARGS && |p.msg.args| == ARGS
  }

  ghost predicate ChannelOk(ob: Obj) {
    RingOk(ob.ring) && |ob.ring.data| == CHANNEL_SIZE && forall p | p in ob.Queue() :: ParcelOk(p)
  }

  ghost predicate ObjOk(s: State, o: nat)
    requires AllSlotsOk(s.objs)
  {
    && o < |s.objs|
    && s.objs[o].refs == Holders(s)[o]
    && (s.objs[o].refs > 0 <==> o in s.global)
    && (s.objs[o].refs == 0 <==> o in s.destroyed)
    && (s.objs[o].refs == 0 ==> Out(s.objs[o]) == multiset{})
    && ChannelOk(s.objs[o])
  }

  /** Every counter equals the number of holders; the global table lists exactly the objects that are held; the
      destructor has run exactly once for every object that no longer is. */
  ghost predicate Inv(s: State) {
    && AllSlotsOk(s.objs)
    && (forall o: nat {:trigger ObjOk(s, o)} | o < |s.objs| :: ObjOk(s, o))
    && Distinct(s.global) && Distinct(s.destroyed)
    && (forall o | o in s.global :: o < |s.objs|) && (forall o | o in s.destroyed :: o < |s.objs|)
    && (forall o | o in Holders(s) :: o < |s.objs|)
  }

  ghost predicate Alive(s: State, o: nat) {
    o < |s.objs| && o in s.global
  }

  /** Whoever is held is alive: nothing is ever destroyed while a handle, a queued message or running code refers to
      it. */
  lemma HeldIsAlive(s: State, o: nat)
    requires Inv(s) && o in Holders(s)
    ensures Alive(s, o) && s.objs[o].refs >= 1 && o !in s.destroyed
  {
    assert ObjOk(s, o);
  }

  /** Same object apart from its counter. */
  ghost predicate SameObj(a: Obj, b: Obj) {
    a.kind == b.kind && a.holds == b.holds && a.slots == b.slots && a.ring == b.ring
  }

  /** Nothing but counters changed for the objects that are still alive, and no object came or came back. */
  ghost predicate Frame(s: State, s': State) {
    && |s'.objs| == |s.objs|
    && (forall o: nat | Alive(s', o) :: Alive(s, o) && SameObj(s.objs[o], s'.objs[o]))
    && s.destroyed <= s'.destroyed
    && s.leaked <= s'.leaked
  }

  lemma FrameTrans(a: State, b: State, c: State)
    requires Frame(a, b) && Frame(b, c)
    ensures Frame(a, c)
  {
  }

  // ----- Steps ---------------------------------------------------------------------------------

  ghost function Bump(objs: seq<Obj>, o: nat, d: int): seq<Obj>
    requires o < |objs|
  {
    objs[o := objs[o].(refs := objs[o].refs + d)]
  }

  lemma BumpTotal(objs: seq<Obj>, o: nat, d: int)
    requires AllSlotsOk(objs) && o < |objs|
    ensures AllSlotsOk(Bump(objs, o, d)) && Total(Bump(objs, o, d)) == Total(objs)
  {
    hide Total, Out;
    var ob := objs[o].(refs := objs[o].refs + d);
    TotalUpdate(objs, o, ob);
    SameOut(objs[o], ob);
    Cancel(Total(objs[o := ob]), Total(objs), Out(ob));
  }

  /** object_ref keeps the invariant. */
  lemma RefKeeps(s: State, o: nat)
    requires Inv(s) && Alive(s, o)
    ensures Inv(s.(objs := Bump(s.objs, o, 1), local := s.local + multiset{o}))
    ensures Frame(s, s.(objs := Bump(s.objs, o, 1), local := s.local + multiset{o}))
  {
    hide Total, Out;
    var s' := s.(objs := Bump(s.objs, o, 1), local := s.local + multiset{o});
    BumpTotal(s.objs, o, 1);
    assert Holders(s') == Holders(s) + multiset{o};
    forall p: nat | p < |s'.objs| ensures ObjOk(s', p) {
      assert ObjOk(s, p);
      SameOut(s.objs[p], s'.objs[p]);
    }
    forall p | p in Holders(s') ensures p < |s'.objs| {
      if p != o { assert p in Holders(s); }
    }
  }

  lemma SameOut(a: Obj, b: Obj)
    requires SlotsOk(a.slots) && SameObj(a, b)
    ensures Out(a) == Out(b)
  {
  }

  /** Dropping a reference that is not the last one keeps the invariant. */
  lemma UnrefKeeps(s: State, o: nat)
    requires Inv(s) && o in s.local && o < |s.objs| && s.objs[o].refs > 1
    ensures Inv(s.(objs := Bump(s.objs, o, -1), local := s.local - multiset{o}))
    ensures Frame(s, s.(objs := Bump(s.objs, o, -1), local := s.local - multiset{o}))
  {
    hide Total, Out;
    var s' := s.(objs := Bump(s.objs, o, -1), local := s.local - multiset{o});
    BumpTotal(s.objs, o, -1);
    assert Holders(s) == Holders(s') + multiset{o};
    assert ObjOk(s, o);
    forall p: nat | p < |s'.objs| ensures ObjOk(s', p) {
      assert ObjOk(s, p);
      SameOut(s.objs[p], s'.objs[p]);
    }
    forall p | p in Holders(s') ensures p < |s'.objs| {
      assert p in Holders(s);
    }
  }

  ghost function Cleared(ob: Obj): Obj {
    Obj(ob.kind, 0, [], NO_SLOTS, NoRing())
  }

  lemma ClearedOut(ob: Obj)
    ensures SlotsOk(Cleared(ob).slots) && ChannelOk(Cleared(ob)) && Out(Cleared(ob)) == multiset{}
  {
    NoRingIsEmpty();
  }

  /** Dropping the last reference: the object leaves the global table, its destructor runs, its own references come into
      the hands of the destructor, and what its channel still holds is lost. */
  ghost function Killed(s: State, o: nat, global': seq<nat>): State
    requires o < |s.objs| && SlotsOk(s.objs[o].slots)
  {
    State(s.objs[o := Cleared(s.objs[o])], global',
          s.local - multiset{o} + multiset(s.objs[o].holds) + SlotRefs(s.objs[o].slots),
          s.leaked + QueueRefs(s.objs[o].Queue()), s.destroyed + [o])
  }

  ghost predicate WithoutOne(q: seq<nat>, q': seq<nat>, o: nat) {
    && Distinct(q')
    && (forall p :: p in q' <==> p in q && p != o)
  }

  lemma KilledHolders(s: State, o: nat, global': seq<nat>)
    requires AllSlotsOk(s.objs) && o < |s.objs| && o in s.local
    ensures AllSlotsOk(Killed(s, o, global').objs)
    ensures Holders(Killed(s, o, global')) + multiset{o} == Holders(s)
  {
    var ob := s.objs[o];
    ClearedOut(ob);
    TotalUpdate(s.objs, o, Cleared(ob));
    var s' := Killed(s, o, global');
    var H, S, Q := multiset(ob.holds), SlotRefs(ob.slots), QueueRefs(ob.Queue());
    assert Out(ob) == H + S + Q;
    hide Total, Out, SlotRefs, QueueRefs, Contents;
    KilledSum(Total(s'.objs), Total(s.objs), H, S, Q, s.local, s.leaked, o);
  }

  lemma KilledSum(T': multiset<nat>, T: multiset<nat>, H: multiset<nat>, S: multiset<nat>, Q: multiset<nat>,
                  l: multiset<nat>, k: multiset<nat>, o: nat)
    requires T' + (H + S + Q) == T + multiset{} && o in l
    ensures T' + (l - multiset{o} + H + S) + (k + Q) + multiset{o} == T + l + k
  {
    assert l - multiset{o} + multiset{o} == l;
    assert T' + (l - multiset{o} + H + S) + (k + Q) + multiset{o}
      == T' + (H + S + Q) + (l - multiset{o} + multiset{o}) + k;
  }

  lemma KillKeeps(s: State, o: nat, global': seq<nat>)
    requires Inv(s) && o in s.local && o < |s.objs| && s.objs[o].refs == 1 && WithoutOne(s.global, global', o)
    ensures Inv(Killed(s, o, global')) && Frame(s, Killed(s, o, global'))
  {
    hide Total, Out, SlotRefs, QueueRefs, Holders, ChannelOk, Contents;
    var s' := Killed(s, o, global');
    KilledHolders(s, o, global');
    assert ObjOk(s, o);
    ClearedOut(s.objs[o]);
    forall p: nat | p < |s'.objs| ensures ObjOk(s', p) {
      OneLess(Holders(s), Holders(s'), o, p);
      assert ObjOk(s, p);
    }
    forall p | p in Holders(s') ensures p < |s'.objs| {
      OneLess(Holders(s), Holders(s'), o, p);
      assert p in Holders(s);
    }
    assert o !in s.destroyed;
  }

  lemma OneLess(a: multiset<nat>, b: multiset<nat>, o: nat, p: nat)
    requires b + multiset{o} == a
    ensures b[p] == a[p] - (if p == o then 1 else 0)
  {
    assert (b + multiset{o})[p] == a[p];
  }

  /** Handing references between an object and running code keeps the invariant. */
  lemma TransferKeeps(s: State, d: nat, ob: Obj, local': multiset<nat>)
    requires Inv(s) && Alive(s, d)
    requires ob.refs == s.objs[d].refs && ob.kind == s.objs[d].kind && SlotsOk(ob.slots)
    requires ChannelOk(ob)
    requires Out(ob) + local' == Out(s.objs[d]) + s.local
    ensures Inv(s.(objs := s.objs[d := ob], local := local'))
  {
    hide Total, Out, SlotRefs, QueueRefs;
    var s' := s.(objs := s.objs[d := ob], local := local');
    TotalUpdate(s.objs, d, ob);
    SameHolders(Total(s'.objs), Total(s.objs), Out(s.objs[d]), Out(ob), s.local, local', s.leaked);
    assert Holders(s') == Holders(s);
    assert ObjOk(s, d);
    forall p: nat | p < |s'.objs| ensures ObjOk(s', p) {
      assert ObjOk(s, p);
    }
  }

  lemma SameHolders(T': multiset<nat>, T: multiset<nat>, a: multiset<nat>, b: multiset<nat>, l: multiset<nat>,
                    l': multiset<nat>, k: multiset<nat>)
    requires T' + a == T + b && b + l' == a + l
    ensures T' + l' + k == T + l + k
  {
    forall o ensures (T' + l')[o] == (T + l)[o] {
      assert (T' + a)[o] == (T + b)[o] && (b + l')[o] == (a + l)[o];
    }
    assert T' + l' == T + l;
  }

  /** object_init: a new object with one reference in the hands of its creator. */
  lemma CreateKeeps(s: State, kind: Kind, holds: seq<nat>)
    requires Inv(s) && multiset(holds) <= s.local
    ensures var o: nat := |s.objs|;
            Inv(State(s.objs + [Obj(kind, 1, holds, NO_SLOTS, NoRing())], s.global + [o],
              s.local - multiset(holds) + multiset{o}, s.leaked, s.destroyed))
  {
    hide Total, Out, SlotRefs, QueueRefs;
    var o: nat := |s.objs|;
    var ob := Obj(kind, 1, holds, NO_SLOTS, NoRing());
    var s' := State(s.objs + [ob], s.global + [o], s.local - multiset(holds) + multiset{o}, s.leaked, s.destroyed);
    NoRingIsEmpty();
    CreateHolders(s, ob, o, s.local - multiset(holds) + multiset{o});
    NotListed(s);
    forall p: nat | p < |s'.objs| ensures ObjOk(s', p) {
      if p < o {
        assert ObjOk(s, p);
        assert s'.objs[p] == s.objs[p] && (p in s'.global <==> p in s.global);
      } else {
        assert s'.global[|s.global|] == o && s'.objs[o] == ob;
      }
    }
    forall p | p in Holders(s') ensures p < |s'.objs| {
      if p != o { assert p in Holders(s); }
    }
  }

  lemma NotListed(s: State)
    requires Inv(s)
    ensures |s.objs| !in s.global && |s.objs| !in s.destroyed && |s.objs| !in Holders(s)
  {
  }

  lemma CreateHolders(s: State, ob: Obj, o: nat, local': multiset<nat>)
    requires AllSlotsOk(s.objs) && ob.slots == NO_SLOTS && ob.Queue() == [] && multiset(ob.holds) <= s.local
    requires local' == s.local - multiset(ob.holds) + multiset{o}
    ensures AllSlotsOk(s.objs + [ob])
    ensures Total(s.objs + [ob]) + local' + s.leaked == Holders(s) + multiset{o}
  {
    TotalAppend(s.objs, ob);
    var H := multiset(ob.holds);
    assert Out(ob) == H;
    hide Total, Out, Contents;
    HandedOver(Total(s.objs), H, s.local, s.leaked, o);
  }

  lemma HandedOver(T: multiset<nat>, H: multiset<nat>, l: multiset<nat>, k: multiset<nat>, o: nat)
    requires H <= l
    ensures T + H + (l - H + multiset{o}) + k == T + l + k + multiset{o}
  {
    assert l - H + H == l;
    assert T + H + (l - H + multiset{o}) + k == T + (l - H + H) + k + multiset{o};
  }
}
