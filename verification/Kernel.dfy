/** The operations of the capability kernel in place (kernel/object.c, domain.c, parcel.c, channel.c). */
module Kernel {
  import opened Basics
  import opened Containers
  import opened Capabilities

  datatype Result = Success | BadHandle | ChannelFull | ChannelEmpty

  class KernelState {
    var objs: seq<Obj>
    var global: seq<nat>
    ghost var local: multiset<nat>
    ghost var leaked: multiset<nat>
    ghost var destroyed: seq<nat>

    ghost function S(): State
      reads this
    {
      State(objs, global, local, leaked, destroyed)
    }

    ghost predicate Valid()
      reads this
    {
      Inv(S())
    }

    constructor ()
      ensures Valid() && objs == [] && local == multiset{}
    {
      objs, global, local, leaked, destroyed := [], [], multiset{}, multiset{}, [];
    }

    /** object_init; `holds` are references the creator hands over to the new object (task_create: space and domain). */
    method ObjectInit(kind: Kind, holds: seq<nat>) returns (o: nat)
      requires Valid() && multiset(holds) <= local
      modifies this
      ensures Valid() && o == |old(objs)|
      ensures local == old(local) - multiset(holds) + multiset{o}
      ensures objs == old(objs) + [Obj(kind, 1, holds, NO_SLOTS, NoRing())] && global == old(global) + [o]
      ensures leaked == old(leaked) && destroyed == old(destroyed)
    {
      CreateKeeps(S(), kind, holds);
      o := |objs|;
      objs := objs + [Obj(kind, 1, holds, NO_SLOTS, NoRing())];
      global := global + [o];
      local := local - multiset(holds) + multiset{o};
    }

    /** object_ref. */
    method ObjectRef(o: nat)
      requires Valid() && Alive(S(), o)
      modifies this
      ensures Valid() && Frame(old(S()), S())
      ensures local == old(local) + multiset{o}
      ensures objs == Bump(old(objs), o, 1) && global == old(global) && leaked == old(leaked)
        && destroyed == old(destroyed)
    {
      hide Inv, Frame;
      RefKeeps(S(), o);
      objs := objs[o := objs[o].(refs := objs[o].refs + 1)];
      local := local + multiset{o};
    }

    /** vec_find in the global table. */
    method Find(o: nat) returns (i: nat)
      requires o in global
      ensures i < |global| && global[i] == o
    {
      i := 0;
      while global[i] != o
        invariant i < |global| && forall j | 0 <= j < i :: global[j] != o
        decreases |global| - i
      {
        i := i + 1;
      }
    }

    /** object_deref: at zero the object leaves the global table and its destructor runs, which may cascade. */
    method ObjectDeref(o: nat)
      requires Valid() && o in local
      modifies this
      ensures Valid() && Frame(old(S()), S())
      ensures local == old(local) - multiset{o}
      ensures |global| <= |old(global)|
      ensures o < |old(objs)| && (old(objs)[o].refs > 1 ==> SameAll(old(S()), S()))
      decreases |global|, 0
    {
      hide Inv, Frame, SameObj;
      LocalIsAlive(S(), o);
      if objs[o].refs == 1 {
        var ob := objs[o];
        var i := Find(o);
        RemoveListed(S(), i);
        KillKeeps(S(), o, global[..i] + global[i + 1..]);
        ghost var s0 := S();
        global := global[..i] + global[i + 1..];
        objs := objs[o := Obj(ob.kind, 0, [], NO_SLOTS, NoRing())];
        local := local - multiset{o} + multiset(ob.holds) + SlotRefs(ob.slots);
        leaked := leaked + QueueRefs(ob.Queue());
        destroyed := destroyed + [o];
        ghost var s1 := S();
        assert s1 == Killed(s0, o, global);
        Enough(s0.local, o, multiset(ob.holds), SlotRefs(ob.slots));
        Destructor(ob);
        FrameTrans(s0, s1, S());
        DropAll(local, s0.local - multiset{o}, multiset(ob.holds), SlotRefs(ob.slots));
      } else {
        UnrefKeeps(S(), o);
        BumpSame(S(), o, -1, local - multiset{o});
        objs := objs[o := objs[o].(refs := objs[o].refs - 1)];
        local := local - multiset{o};
      }
    }

    /** domain_destroy releases every handle, task_destroy the task's own references. */
    method Destructor(ob: Obj)
      requires Valid() && SlotsOk(ob.slots) && multiset(ob.holds) + SlotRefs(ob.slots) <= local
      modifies this
      ensures Valid() && Frame(old(S()), S())
      ensures local + multiset(ob.holds) + SlotRefs(ob.slots) == old(local)
      ensures |global| <= |old(global)|
      decreases |global|, 2
    {
      hide Inv, Frame, SlotRefs;
      ghost var s0 := S();
      ReleaseSlots(ob.slots);
      ghost var s1 := S();
      SplitRefs(s0.local, local, multiset(ob.holds), SlotRefs(ob.slots));
      ReleaseHolds(ob.holds);
      FrameTrans(s0, s1, S());
    }

    method ReleaseSlots(slots: Slots)
      requires Valid() && SlotsOk(slots) && SlotRefs(slots) <= local
      modifies this
      ensures Valid() && Frame(old(S()), S())
      ensures local + SlotRefs(slots) == old(local)
      ensures |global| <= |old(global)|
      decreases |global|, 1
    {
      hide Inv, Frame, RefsUpTo;
      ghost var s0 := S();
      FrameSelf(s0);
      NoRefs(slots);
      var i := 0;
      while i < |slots.used|
        invariant 0 <= i <= |slots.used| && Valid() && Frame(s0, S()) && |global| <= |s0.global|
        invariant local + RefsUpTo(slots, i) == s0.local
      {
        ghost var s1 := S();
        StillHeld(s0.local, local, slots, i);
        if slots.used[i] {
          ObjectDeref(slots.data[i]);
          FrameTrans(s0, s1, S());
        }
        i := i + 1;
      }
    }

    method ReleaseHolds(holds: seq<nat>)
      requires Valid() && multiset(holds) <= local
      modifies this
      ensures Valid() && Frame(old(S()), S())
      ensures local + multiset(holds) == old(local)
      ensures |global| <= |old(global)|
      decreases |global|, 1
    {
      hide Inv, Frame;
      ghost var s0 := S();
      FrameSelf(s0);
      var i := 0;
      assert holds[..0] == [];
      while i < |holds|
        invariant 0 <= i <= |holds| && Valid() && Frame(s0, S()) && |global| <= |s0.global|
        invariant local + multiset(holds[..i]) == s0.local
      {
        ghost var s1 := S();
        NextHold(s0.local, local, holds, i);
        ObjectDeref(holds[i]);
        FrameTrans(s0, s1, S());
        i := i + 1;
      }
      assert holds[..i] == holds;
    }

    // ----- Domains -------------------------------------------------------------------------------

    /** Hands references between object d and running code. */
    method Exchange(d: nat, ob: Obj, ghost local': multiset<nat>)
      requires Valid() && Alive(S(), d)
      requires ob.refs == objs[d].refs && ob.kind == objs[d].kind && ob.holds == objs[d].holds && SlotsOk(ob.slots)
      requires ChannelOk(ob)
      requires SlotsOk(objs[d].slots) && Out(ob) + local' == Out(objs[d]) + local
      modifies `objs, `local
      ensures Valid() && objs == old(objs)[d := ob] && local == local'
    {
      hide Inv, Out;
      TransferKeeps(S(), d, ob, local');
      objs, local := objs[d := ob], local';
    }

    /** domain_add: a fresh handle for o; all other handles stay as they are. */
    method DomainAdd(d: nat, o: nat) returns (h: nat)
      requires Valid() && Alive(S(), d) && Alive(S(), o)
      modifies this
      ensures Valid() && local == old(local) && SameBut(old(S()), S(), d)
      ensures Tables(old(S()), S(), d)
      ensures h !in Handles(old(objs)[d].slots) && Handles(objs[d].slots) == Handles(old(objs)[d].slots)[h := o]
      ensures objs[d].ring == old(objs)[d].ring
    {
      hide Inv, Frame, Out, SlotRefs, Handles;
      ghost var s0 := S();
      TableOk(s0, d);
      var slots;
      h, slots := SlotAlloc(objs[d].slots, o);
      RefSame(s0, o);
      ObjectRef(o);
      ghost var s1 := S();
      TableOk(s1, d);
      SlotGained(objs[d], slots, o, local);
      Exchange(d, objs[d].(slots := slots), local - multiset{o});
      SameButUpdate(s0, s1, S(), d);
    }

    /** domain_lookup: a new reference to the object behind a handle. */
    method DomainLookup(d: nat, h: int, f: Filter) returns (r: Option<nat>)
      requires Valid() && Alive(S(), d)
      modifies this
      ensures Valid() && SameAll(old(S()), S())
      ensures r == Named(old(S()), d, h, f)
      ensures SlotsOk(old(objs)[d].slots) && forall o :: r == Some(o) <==>
        && h >= 0 && h in Handles(old(objs)[d].slots) && o == Handles(old(objs)[d].slots)[h]
        && o < |old(objs)| && (f.Any? || old(objs)[o].kind == f.kind)
      ensures local == old(local) + (match r case Some(o) => multiset{o} case None => multiset{})
      ensures r.Some? ==> Alive(S(), r.value)
    {
      hide Inv, Frame, Out, SlotRefs;
      TableOk(S(), d);
      SameSelf(S());
      if !SlotValid(objs[d].slots, h) { return None; }
      var o := objs[d].slots.data[h];
      SlotIsAlive(S(), d, h);
      if !Matches(f, objs[o].kind) { return None; }
      RefSame(S(), o);
      ObjectRef(o);
      return Some(o);
    }

    /** domain_remove. The caller works through a reference to the domain, so the cascade cannot reach it. */
    method DomainRemove(d: nat, h: int) returns (r: Result)
      requires Valid() && d in local
      modifies this
      ensures Valid() && local == old(local) && Alive(S(), d) && Alive(old(S()), d)
      ensures Tables(old(S()), S(), d)
      ensures r == if SlotValid(old(objs)[d].slots, h) then Success else BadHandle
      ensures r == Success <==> h >= 0 && h in Handles(old(objs)[d].slots)
      ensures r == BadHandle ==> S() == old(S())
      ensures r == Success ==> Handles(objs[d].slots) == Handles(old(objs)[d].slots) - {h}
      ensures r == Success ==>
        FrameBut(old(S()), S(), d) && objs[d].ring == old(objs)[d].ring && objs[d].kind == old(objs)[d].kind
    {
      hide Inv, Frame, Out, SlotRefs, Handles;
      ghost var s0 := S();
      LocalIsAlive(s0, d);
      TableOk(s0, d);
      ValidIsHandle(objs[d].slots, h);
      if !SlotValid(objs[d].slots, h) { return BadHandle; }
      var o := objs[d].slots.data[h];
      var slots := SlotRelease(objs[d].slots, h);
      SlotLost(objs[d], slots, o, local);
      Exchange(d, objs[d].(slots := slots), local + multiset{o});
      ghost var s1 := S();
      ObjectDeref(o);
      LocalBack(s0.local, o);
      LocalIsAlive(S(), d);
      FrameAfterSlot(s0, s1, S(), d);
      TableOk(S(), d);
      return Success;
    }

    /** global_lookup. */
    method GlobalLookup(id: nat, f: Filter) returns (r: Option<nat>)
      requires Valid()
      modifies this
      ensures Valid() && SameAll(old(S()), S())
      ensures forall o :: r == Some(o) <==>
        o == id && id in old(global) && id < |old(objs)| && (f.Any? || old(objs)[id].kind == f.kind)
      ensures local == old(local) + (match r case Some(o) => multiset{o} case None => multiset{})
    {
      hide Frame;
      SameSelf(S());
      for i := 0 to |global|
        invariant Valid() && S() == old(S())
        invariant forall j | 0 <= j < i && global[j] == id :: id < |objs| && !Matches(f, objs[id].kind)
      {
        assert global[i] in global;
        var o := global[i];
        if o == id && Matches(f, objs[o].kind) {
          RefSame(S(), o);
          ObjectRef(o);
          return Some(o);
        }
      }
      return None;
    }

    // ----- Parcels -------------------------------------------------------------------------------

    /** parcel_deinit: gives back the references of a parcel. */
    method ParcelDeinit(ps: seq<Option<nat>>)
      requires Valid() && ObjsRefs(ps) <= local
      modifies this
      ensures Valid() && Frame(old(S()), S())
      ensures local + ObjsRefs(ps) == old(local)
      ensures Backed(old(S()), ps) ==> SameAll(old(S()), S())
    {
      hide Inv, Frame, ObjsRefs, SameAll, Backed;
      ghost var s0 := S();
      FrameSelf(s0);
      SameSelf(s0);
      NoObjs(ps);
      var i := 0;
      while i < |ps|
        invariant 0 <= i <= |ps| && Valid() && Frame(s0, S())
        invariant local + ObjsRefs(ps[..i]) == s0.local
        invariant Backed(s0, ps) ==> SameAll(s0, S())
      {
        ghost var s1 := S();
        NextObj(s0.local, local, ps, i);
        if ps[i].Some? {
          BackedStays(s0, s1, ps, i);
          ObjectDeref(ps[i].value);
          FrameTrans(s0, s1, S());
          SameTrans(s0, s1, S());
        }
        i := i + 1;
      }
      assert ps[..i] == ps;
    }

    /** parcel_pack. Either every flagged argument named an object and all of them are now referenced, or nothing
        changed. */
    method ParcelPack(msg: Msg, domain: Option<nat>) returns (r: Result, parcel: Parcel)
      requires Valid() && |msg.args| == ARGS && (domain.Some? ==> Alive(S(), domain.value))
      modifies this
      ensures Valid() && SameAll(old(S()), S())
      ensures r == if Sendable(old(S()), domain, msg) then Success else BadHandle
      ensures r == Success ==> parcel == Packed(old(S()), domain, msg) && local == old(local) + ObjsRefs(parcel.objs)
      ensures r == BadHandle ==> S() == old(S())
    {
      hide Inv, ObjsRefs, SameAll;
      ghost var s0 := S();
      SameSelf(s0);
      var ps := seq(ARGS, _ => None);
      if domain.None? {
        NobodyPacked(ps);
        return Success, Parcel(msg, ps);
      }
      var d := domain.value;
      NobodyPacked(ps);
      var i := 0;
      while i < ARGS
        invariant 0 <= i <= ARGS && |ps| == ARGS && Valid() && SameAll(s0, S())
        invariant local == s0.local + ObjsRefs(ps)
        invariant PackedUpTo(s0, d, msg, ps, i)
      {
        ghost var s1 := S();
        SameAlive(s0, s1, d);
        if i in msg.flags {
          SameNames(s0, s1, d, msg.args[i]);
          var o := DomainLookup(d, msg.args[i], Any);
          ghost var s2 := S();
          SameTrans(s0, s1, s2);
          if o.None? {
            PackedIsBacked(s0, s2, d, msg, ps, i);
            Included(s0.local, local, ObjsRefs(ps));
            NotSendable(s0, d, msg, i);
            ParcelDeinit(ps);
            SameTrans(s0, s2, S());
            Cancel(local, s0.local, ObjsRefs(ps));
            SameMeansEqual(s0, S());
            return BadHandle, Parcel(msg, ps);
          }
          OnePacked(ps, i, o.value);
          ps := ps[i := o];
        }
        i := i + 1;
      }
      AllPacked(s0, domain, msg, ps);
      return Success, Parcel(msg, ps);
    }

    /** The loop of parcel_unpack: a fresh handle for every object of the parcel. */
    method AddAll(ps: seq<Option<nat>>, args: seq<nat>, d: nat) returns (r: seq<nat>)
      requires Valid() && Alive(S(), d) && |ps| == |args| && ObjsRefs(ps) <= local
      modifies this
      ensures Valid() && local == old(local) && SameBut(old(S()), S(), d) && objs[d].ring == old(objs)[d].ring
      ensures Tables(old(S()), S(), d) && Delivered(ps, args, r, old(objs)[d].slots, objs[d].slots, |ps|)
    {
      hide Inv, ObjsRefs, SameBut, Handles;
      ghost var s0 := S();
      SameButSelf(s0, d);
      TableOk(s0, d);
      r := args;
      var i := 0;
      while i < |ps|
        invariant 0 <= i <= |ps| && Valid() && local == s0.local && SameBut(s0, S(), d)
        invariant Tables(s0, S(), d) && objs[d].ring == s0.objs[d].ring
        invariant Delivered(ps, args, r, s0.objs[d].slots, objs[d].slots, i)
      {
        ghost var s1 := S();
        SameButAlive(s0, s1, d);
        if ps[i].Some? {
          ParcelIsAlive(s1, ps, i);
          var h := DomainAdd(d, ps[i].value);
          SameButTrans(s0, s1, S(), d);
          DeliverOne(ps, args, r, s0.objs[d].slots, s1.objs[d].slots, objs[d].slots, i, h);
          r := r[i := h];
        }
        i := i + 1;
      }
    }

    /** parcel_unpack. */
    method ParcelUnpack(parcel: Parcel, domain: Option<nat>) returns (msg: Msg)
      requires Valid() && ParcelOk(parcel)
      requires domain.None? ==> ObjsRefs(parcel.objs) <= local
      requires domain.Some? ==> multiset{domain.value} + ObjsRefs(parcel.objs) <= local
      modifies this
      ensures Valid() && local + ObjsRefs(parcel.objs) == old(local)
      ensures msg.flags == parcel.msg.flags && msg.info == parcel.msg.info
      ensures domain.None? ==> msg == parcel.msg && Frame(old(S()), S())
      ensures domain.Some? ==>
        var d := domain.value;
        && SameBut(old(S()), S(), d) && Tables(old(S()), S(), d) && objs[d].ring == old(objs)[d].ring
        && Delivered(parcel.objs, parcel.msg.args, msg.args, old(objs)[d].slots, objs[d].slots, ARGS)
    {
      hide Inv, ObjsRefs, SameBut, SameAll, Frame, Backed, Delivered;
      if domain.None? {
        ParcelDeinit(parcel.objs);
        return parcel.msg;
      }
      var d := domain.value;
      ghost var s0 := S();
      Subtract(local, d, ObjsRefs(parcel.objs));
      LocalIsAlive(s0, d);
      var args := AddAll(parcel.objs, parcel.msg.args, d);
      ghost var s1 := S();
      DeliveredIsBacked(s0, s1, parcel.objs, parcel.msg.args, args, d);
      ParcelDeinit(parcel.objs);
      SameButThenAll(s0, s1, S(), d);
      return parcel.msg.(args := args);
    }

    // ----- Channels ------------------------------------------------------------------------------

    /** channel_send_unlock: on success the parcel is queued last; otherwise nothing changed. */
    method ChannelSend(c: nat, domain: Option<nat>, msg: Msg) returns (r: Result)
      requires Valid() && Alive(S(), c) && |msg.args| == ARGS && (domain.Some? ==> Alive(S(), domain.value))
      modifies this
      ensures Valid() && local == old(local)
      ensures r == if |old(objs)[c].Queue()| == CHANNEL_SIZE then ChannelFull
                   else if Sendable(old(S()), domain, msg) then Success else BadHandle
      ensures r != Success ==> S() == old(S())
      ensures r == Success ==> SameBut(old(S()), S(), c) && objs[c].slots == old(objs)[c].slots
      ensures r == Success ==> objs[c].Queue() == old(objs)[c].Queue() + [Packed(old(S()), domain, msg)]
    {
      ghost var s0 := S();
      TableOk(s0, c);
      ContentsSize(objs[c].ring);
      hide Inv, ObjsRefs, SameBut, SameAll, Out, Contents, RingOk;
      if objs[c].ring.used == |objs[c].ring.data| { return ChannelFull; }
      var res, parcel := ParcelPack(msg, domain);
      if res != Success { return res; }
      ghost var s1 := S();
      SameAlive(s0, s1, c);
      SameTable(s0, s1, c);
      QueueGained(objs[c], parcel, local, s0.local);
      var ring := Pushed(objs[c].ring, parcel);
      Exchange(c, objs[c].(ring := ring), s0.local);
      SameButUpdate(s0, s1, S(), c);
      return Success;
    }

    /** channel_recv_unlock: the oldest parcel leaves the queue and is unpacked for the receiver. */
    method ChannelRecv(c: nat, domain: Option<nat>) returns (r: Result, msg: Msg)
      requires Valid() && Alive(S(), c) && (domain.Some? ==> domain.value in local)
      modifies this
      ensures Valid() && local == old(local)
      ensures r == if old(objs)[c].Queue() == [] then ChannelEmpty else Success
      ensures r == ChannelEmpty ==> S() == old(S())
      ensures r == Success ==> Received(old(S()), S(), c, domain, msg)
    {
      ghost var s0 := S();
      TableOk(s0, c);
      ContentsSize(objs[c].ring);
      hide Inv, ObjsRefs, Out, Delivered, QueueRefs, SlotRefs, Contents, RingOk, SameBut, Frame;
      if objs[c].ring.used == 0 { return ChannelEmpty, Msg({}, [], 0); }
      var parcel := objs[c].ring.data[objs[c].ring.tail];
      assert parcel in objs[c].Queue();
      QueueLost(objs[c], local);
      if domain.Some? { LocalIsAlive(s0, domain.value); TableOk(s0, domain.value); }
      Exchange(c, objs[c].(ring := Popped(objs[c].ring)), local + ObjsRefs(parcel.objs));
      ghost var s1 := S();
      ShareLocal(s0.local, domain, ObjsRefs(parcel.objs));
      msg := ParcelUnpack(parcel, domain);
      Cancel(local, s0.local, ObjsRefs(parcel.objs));
      ReceivedAfter(s0, s1, S(), c, domain, msg);
      r := Success;
    }
  }

  // ----- Delivery ------------------------------------------------------------------------------

  /** After the first n arguments: each object of the parcel has its own fresh handle, written into the message; the
      other arguments and all handles from before are unchanged. */
  ghost predicate Delivered(ps: seq<Option<nat>>, args: seq<nat>, r: seq<nat>, before: Slots, after: Slots, n: nat) {
    && SlotsOk(before) && SlotsOk(after) && |r| == |args| == |ps| && n <= |ps|
    && (forall h | h in Handles(before) :: h in Handles(after) && Handles(after)[h] == Handles(before)[h])
    && (forall i: nat | i < |ps| && (i >= n || ps[i].None?) :: r[i] == args[i])
    && (forall i: nat | i < n && ps[i].Some? ::
      r[i] !in Handles(before) && r[i] in Handles(after) && Handles(after)[r[i]] == ps[i].value)
    && (forall i: nat, j: nat | i < j < n && ps[i].Some? && ps[j].Some? :: r[i] != r[j])
  }

  /** The oldest message of c was taken and delivered: queues and handle tables of all objects before and after. */
  ghost predicate Received(s: State, s': State, c: nat, domain: Option<nat>, msg: Msg) {
    && c < |s.objs| && |s'.objs| == |s.objs| && s.objs[c].Queue() != []
    && var parcel := s.objs[c].Queue()[0];
    && ParcelOk(parcel) && msg.flags == parcel.msg.flags && msg.info == parcel.msg.info
    && (forall o: nat | Alive(s', o) :: ReceivedAt(s, s', c, domain, o))
    && (domain.None? ==> msg == parcel.msg)
    && (domain.Some? ==>
          && s'.global == s.global && Tables(s, s', domain.value)
          && Delivered(parcel.objs, parcel.msg.args, msg.args,
                       s.objs[domain.value].slots, s'.objs[domain.value].slots, ARGS))
  }

  ghost predicate ReceivedAt(s: State, s': State, c: nat, domain: Option<nat>, o: nat) {
    && Alive(s, o) && o < |s'.objs|
    && s'.objs[o].Queue() == (if o == c && s.objs[o].Queue() != [] then s.objs[o].Queue()[1..] else s.objs[o].Queue())
    && (domain != Some(o) ==> s'.objs[o].slots == s.objs[o].slots)
  }

  lemma ReceivedAfter(s0: State, s1: State, s2: State, c: nat, domain: Option<nat>, msg: Msg)
    requires c < |s0.objs| && s0.objs[c].Queue() != [] && s1 == s0.(objs := s1.objs, local := s1.local)
    requires |s1.objs| == |s0.objs| && s1.objs == s0.objs[c := s1.objs[c]]
    requires s1.objs[c].Queue() == s0.objs[c].Queue()[1..] && s1.objs[c].slots == s0.objs[c].slots
    requires var parcel := s0.objs[c].Queue()[0];
             && ParcelOk(parcel) && msg.flags == parcel.msg.flags && msg.info == parcel.msg.info
             && (domain.None? ==> msg == parcel.msg && Frame(s1, s2))
             && (domain.Some? ==>
                   && SameBut(s1, s2, domain.value) && Tables(s1, s2, domain.value)
                   && s2.objs[domain.value].ring == s1.objs[domain.value].ring
                   && Delivered(parcel.objs, parcel.msg.args, msg.args,
                                s1.objs[domain.value].slots, s2.objs[domain.value].slots, ARGS))
    ensures Received(s0, s2, c, domain, msg)
  {
    hide Delivered, Contents;
    forall o: nat | Alive(s2, o) ensures ReceivedAt(s0, s2, c, domain, o) {
      if domain.Some? && o != domain.value {
        assert SameObj(s1.objs[o], s2.objs[o]);
      }
    }
  }

  lemma DeliverOne(ps: seq<Option<nat>>, args: seq<nat>, r: seq<nat>, s0: Slots, s1: Slots, s2: Slots, i: nat, h: nat)
    requires i < |ps| && ps[i].Some? && Delivered(ps, args, r, s0, s1, i) && SlotsOk(s2)
    requires h !in Handles(s1) && Handles(s2) == Handles(s1)[h := ps[i].value]
    ensures Delivered(ps, args, r[i := h], s0, s2, i + 1)
  {
    hide Handles;
  }

  /** What the sender's handle named is what the receiver's handle names. */
  lemma ThroughChannel(s: State, d: nat, msg: Msg, r: seq<nat>, before: Slots, after: Slots, i: nat)
    requires |msg.args| == ARGS && d < |s.objs| && SlotsOk(s.objs[d].slots) && Sendable(s, Some(d), msg) && i < ARGS
    requires Delivered(Packed(s, Some(d), msg).objs, msg.args, r, before, after, ARGS)
    ensures i in msg.flags ==>
      && msg.args[i] in Handles(s.objs[d].slots) && r[i] in Handles(after)
      && Handles(after)[r[i]] == Handles(s.objs[d].slots)[msg.args[i]]
    ensures i !in msg.flags ==> r[i] == msg.args[i]
  {
    var p := Packed(s, Some(d), msg);
    assert i in msg.flags ==> p.objs[i] == Named(s, d, msg.args[i], Any) && p.objs[i].Some?;
  }

  lemma SameButSelf(s: State, d: nat)
    ensures SameBut(s, s, d)
  {
  }

  lemma SameButAlive(s0: State, s1: State, d: nat)
    requires SameBut(s0, s1, d) && Alive(s0, d)
    ensures Alive(s1, d)
  {
  }

  lemma SameButTrans(a: State, b: State, c: State, d: nat)
    requires SameBut(a, b, d) && SameBut(b, c, d)
    ensures SameBut(a, c, d)
  {
  }

  lemma SameButThenAll(a: State, b: State, c: State, d: nat)
    requires SameBut(a, b, d) && SameAll(b, c) && d < |b.objs|
    ensures SameBut(a, c, d) && d < |c.objs| && SameObj(b.objs[d], c.objs[d])
  {
  }

  lemma {:induction false} ObjInRefs(ps: seq<Option<nat>>, i: nat)
    requires i < |ps| && ps[i].Some?
    ensures ps[i].value in ObjsRefs(ps)
  {
    if i < |ps| - 1 { ObjInRefs(ps[..|ps| - 1], i); }
  }

  lemma ParcelIsAlive(s: State, ps: seq<Option<nat>>, i: nat)
    requires Inv(s) && ObjsRefs(ps) <= s.local && i < |ps| && ps[i].Some?
    ensures Alive(s, ps[i].value)
  {
    ObjInRefs(ps, i);
    LocalIsAlive(s, ps[i].value);
  }

  lemma Subtract(l: multiset<nat>, d: nat, R: multiset<nat>)
    requires multiset{d} + R <= l
    ensures R <= l && d in l
  {
  }

  lemma DeliveredIsBacked(s0: State, s1: State, ps: seq<Option<nat>>, args: seq<nat>, r: seq<nat>, d: nat)
    requires Inv(s1) && d < |s0.objs| && d < |s1.objs|
      && Delivered(ps, args, r, s0.objs[d].slots, s1.objs[d].slots, |ps|)
    ensures Backed(s1, ps)
  {
    forall i | 0 <= i < |ps| && ps[i].Some? ensures ps[i].value in Total(s1.objs) {
      var slots := s1.objs[d].slots;
      SlotDataHeld(slots, r[i], |slots.used|);
      OutInTotal(s1.objs, d, ps[i].value);
    }
  }

  lemma SameTable(s0: State, s1: State, c: nat)
    requires SameAll(s0, s1) && c < |s0.objs|
    ensures c < |s1.objs| && s1.objs[c].ring == s0.objs[c].ring && s1.objs[c].slots == s0.objs[c].slots
  {
    assert SameObj(s0.objs[c], s1.objs[c]);
  }

  lemma QueueGained(ob: Obj, p: Parcel, l: multiset<nat>, l0: multiset<nat>)
    requires SlotsOk(ob.slots) && ChannelOk(ob) && ob.ring.used < CHANNEL_SIZE && ParcelOk(p)
      && l == l0 + ObjsRefs(p.objs)
    ensures var ob' := ob.(ring := Pushed(ob.ring, p));
            && ChannelOk(ob') && ob'.Queue() == ob.Queue() + [p]
            && Out(ob') + l0 == Out(ob) + l
  {
    PushAppends(ob.ring, p);
    hide SlotRefs, QueueRefs, ObjsRefs, Contents;
    QueueRefsAppend(ob.Queue(), p);
    var H, R, Q, P := multiset(ob.holds), SlotRefs(ob.slots), QueueRefs(ob.Queue()), ObjsRefs(p.objs);
    assert H + R + (Q + P) + l0 == H + R + Q + (l0 + P);
  }

  lemma QueueLost(ob: Obj, l: multiset<nat>)
    requires SlotsOk(ob.slots) && ChannelOk(ob) && ob.ring.used > 0
    ensures ob.Queue() != [] && ob.Queue()[0] == ob.ring.data[ob.ring.tail]
    ensures var ob' := ob.(ring := Popped(ob.ring));
            && ChannelOk(ob') && ob'.Queue() == ob.Queue()[1..]
            && Out(ob') + (l + ObjsRefs(ob.Queue()[0].objs)) == Out(ob) + l
  {
    PopTakes(ob.ring);
    hide SlotRefs, ObjsRefs, Contents;
    var q := ob.Queue();
    assert Contents(Popped(ob.ring)) == q[1..];
    var H, R, Q, P := multiset(ob.holds), SlotRefs(ob.slots), QueueRefs(q[1..]), ObjsRefs(q[0].objs);
    assert QueueRefs(q) == P + Q;
    hide QueueRefs;
    assert H + R + Q + (l + P) == H + R + (P + Q) + l;
  }

  lemma ShareLocal(l: multiset<nat>, domain: Option<nat>, R: multiset<nat>)
    requires domain.Some? ==> domain.value in l
    ensures R <= l + R
    ensures domain.Some? ==> multiset{domain.value} + R <= l + R
  {
  }

  // ----- Parcels -------------------------------------------------------------------------------

  /** Every object of the parcel is also held by some handle, so giving back the parcel destroys nothing. */
  ghost predicate Backed(s: State, ps: seq<Option<nat>>) {
    && AllSlotsOk(s.objs)
    && forall i | 0 <= i < |ps| && ps[i].Some? :: ps[i].value in Total(s.objs)
  }

  ghost predicate Sendable(s: State, domain: Option<nat>, msg: Msg) {
    domain.Some? && domain.value < |s.objs| && |msg.args| == ARGS ==>
      forall i: nat | i < ARGS && i in msg.flags :: Named(s, domain.value, msg.args[i], Any).Some?
  }

  /** The parcel of a message: flagged arguments are resolved in the sender's domain. */
  ghost function Packed(s: State, domain: Option<nat>, msg: Msg): Parcel
    requires |msg.args| == ARGS && (domain.Some? ==> domain.value < |s.objs|)
  {
    Parcel(msg, seq(ARGS, i requires 0 <= i < ARGS =>
      if domain.Some? && i in msg.flags then Named(s, domain.value, msg.args[i], Any) else None))
  }

  ghost predicate PackedUpTo(s: State, d: nat, msg: Msg, ps: seq<Option<nat>>, n: nat)
    requires |msg.args| == ARGS && d < |s.objs|
  {
    && |ps| == ARGS && n <= ARGS
    && (forall i: nat | i < n :: ps[i] == if i in msg.flags then Named(s, d, msg.args[i], Any) else None)
    && (forall i: nat | i < n && i in msg.flags :: ps[i].Some?)
    && (forall i: nat | n <= i < ARGS :: ps[i] == None)
  }

  lemma AllPacked(s: State, domain: Option<nat>, msg: Msg, ps: seq<Option<nat>>)
    requires |msg.args| == ARGS && domain.Some? && domain.value < |s.objs| && PackedUpTo(s, domain.value, msg, ps, ARGS)
    ensures Parcel(msg, ps) == Packed(s, domain, msg) && Sendable(s, domain, msg)
  {
  }

  lemma NotSendable(s: State, d: nat, msg: Msg, i: nat)
    requires |msg.args| == ARGS && d < |s.objs| && i < ARGS && i in msg.flags && Named(s, d, msg.args[i], Any).None?
    ensures !Sendable(s, Some(d), msg)
  {
  }

  lemma NobodyPacked(ps: seq<Option<nat>>)
    requires forall i | 0 <= i < |ps| :: ps[i] == None
    ensures ObjsRefs(ps) == multiset{}
  {
    if ps != [] { NobodyPacked(ps[..|ps| - 1]); }
  }

  lemma NoObjs(ps: seq<Option<nat>>)
    ensures ObjsRefs(ps[..0]) == multiset{}
  {
  }

  lemma {:induction false} OnePacked(ps: seq<Option<nat>>, i: nat, o: nat)
    requires i < |ps| && ps[i] == None
    ensures ObjsRefs(ps[i := Some(o)]) == ObjsRefs(ps) + multiset{o}
    decreases |ps|
  {
    var n := |ps| - 1;
    if i < n {
      OnePacked(ps[..n], i, o);
      assert ps[i := Some(o)][..n] == ps[..n][i := Some(o)];
    } else {
      assert ps[i := Some(o)][..n] == ps[..n];
    }
  }

  lemma {:induction false} ObjsGrow(ps: seq<Option<nat>>, i: nat)
    requires i <= |ps|
    ensures ObjsRefs(ps[..i]) <= ObjsRefs(ps)
    decreases |ps|
  {
    if i == |ps| {
      assert ps[..i] == ps;
    } else {
      ObjsGrow(ps[..|ps| - 1], i);
      assert ps[..|ps| - 1][..i] == ps[..i];
    }
  }

  lemma NextObj(l0: multiset<nat>, l: multiset<nat>, ps: seq<Option<nat>>, i: nat)
    requires i < |ps| && ObjsRefs(ps) <= l0 && l + ObjsRefs(ps[..i]) == l0
    ensures ps[i].Some? ==> ps[i].value in l && l - multiset{ps[i].value} + ObjsRefs(ps[..i + 1]) == l0
    ensures ps[i].None? ==> l + ObjsRefs(ps[..i + 1]) == l0
  {
    hide ObjsRefs;
    ObjsGrow(ps, i + 1);
    ObjsStep(ps, i);
    if ps[i].Some? {
      var x := ps[i].value;
      assert (l + ObjsRefs(ps[..i]))[x] >= ObjsRefs(ps[..i + 1])[x];
    }
  }

  lemma ObjsStep(ps: seq<Option<nat>>, i: nat)
    requires i < |ps|
    ensures ObjsRefs(ps[..i + 1])
      == ObjsRefs(ps[..i]) + (match ps[i] case None => multiset{} case Some(o) => multiset{o})
  {
    assert ps[..i + 1][..i] == ps[..i];
  }

  lemma SameTrans(a: State, b: State, c: State)
    ensures SameAll(a, b) && SameAll(b, c) ==> SameAll(a, c)
  {
  }

  lemma {:induction false} SameTotal(a: seq<Obj>, b: seq<Obj>)
    requires AllSlotsOk(a) && |a| == |b| && forall i | 0 <= i < |a| :: SameObj(a[i], b[i])
    ensures AllSlotsOk(b) && Total(a) == Total(b)
  {
    if a != [] {
      var n := |a| - 1;
      SameTotal(a[..n], b[..n]);
      SameOut(a[n], b[n]);
    }
  }

  /** An object that is both held by an object and by running code has at least two references. */
  lemma BackedStays(s0: State, s1: State, ps: seq<Option<nat>>, i: nat)
    requires Inv(s0) && Inv(s1) && i < |ps| && ps[i].Some? && ps[i].value in s1.local
    ensures Backed(s0, ps) && SameAll(s0, s1) ==> ps[i].value < |s1.objs| && s1.objs[ps[i].value].refs > 1
  {
    if Backed(s0, ps) && SameAll(s0, s1) {
      var o := ps[i].value;
      SameTotal(s0.objs, s1.objs);
      assert Holders(s1)[o] >= 2;
      HeldIsAlive(s1, o);
      assert ObjOk(s1, o);
    }
  }

  lemma SameAlive(s0: State, s1: State, d: nat)
    requires SameAll(s0, s1) && Alive(s0, d)
    ensures Alive(s1, d)
  {
  }

  lemma SameNames(s0: State, s1: State, d: nat, h: int)
    requires SameAll(s0, s1) && d < |s0.objs|
    ensures d < |s1.objs| && Named(s1, d, h, Any) == Named(s0, d, h, Any)
  {
  }

  lemma PackedIsBacked(s0: State, s1: State, d: nat, msg: Msg, ps: seq<Option<nat>>, n: nat)
    requires Inv(s0) && Inv(s1) && SameAll(s0, s1) && |msg.args| == ARGS && d < |s0.objs|
      && PackedUpTo(s0, d, msg, ps, n)
    ensures Backed(s1, ps)
  {
    SameTotal(s0.objs, s1.objs);
    forall i | 0 <= i < |ps| && ps[i].Some? ensures ps[i].value in Total(s0.objs) {
      var slots := s0.objs[d].slots;
      SlotDataHeld(slots, msg.args[i], |slots.used|);
      OutInTotal(s0.objs, d, ps[i].value);
    }
  }

  lemma Included(l0: multiset<nat>, l: multiset<nat>, R: multiset<nat>)
    requires l == l0 + R
    ensures R <= l
  {
  }

  /** States with the same tables and the same outstanding references have the same counters. */
  lemma SameMeansEqual(s0: State, s1: State)
    requires Inv(s0) && Inv(s1) && SameAll(s0, s1) && s0.local == s1.local
    ensures s0 == s1
  {
    SameTotal(s0.objs, s1.objs);
    forall o: nat | o < |s0.objs| ensures s0.objs[o] == s1.objs[o] {
      assert ObjOk(s0, o) && ObjOk(s1, o) && SameObj(s0.objs[o], s1.objs[o]);
    }
  }

  // ----- Frames --------------------------------------------------------------------------------

  /** Only counters and outstanding references changed. */
  ghost predicate SameAll(s: State, s': State) {
    && |s'.objs| == |s.objs|
    && (forall o: nat | o < |s.objs| :: SameObj(s.objs[o], s'.objs[o]))
    && s'.global == s.global && s'.leaked == s.leaked && s'.destroyed == s.destroyed
  }

  /** ... except that object d changed its tables. */
  ghost predicate SameBut(s: State, s': State, d: nat) {
    && |s'.objs| == |s.objs|
    && (forall o: nat | o < |s.objs| && o != d :: SameObj(s.objs[o], s'.objs[o]))
    && s'.global == s.global && s'.leaked == s.leaked && s'.destroyed == s.destroyed
  }

  /** Frame for all objects but d. */
  ghost predicate FrameBut(s: State, s': State, d: nat) {
    && |s'.objs| == |s.objs|
    && (forall o: nat | Alive(s', o) && o != d :: Alive(s, o) && SameObj(s.objs[o], s'.objs[o]))
    && s.destroyed <= s'.destroyed && s.leaked <= s'.leaked
  }

  /** The slot tables of d before and after are well formed. */
  ghost predicate Tables(s: State, s': State, d: nat) {
    d < |s.objs| && d < |s'.objs| && SlotsOk(s.objs[d].slots) && SlotsOk(s'.objs[d].slots)
  }

  /** The object a handle names, if it is valid and of the wanted type. */
  ghost function Named(s: State, d: nat, h: int, f: Filter): Option<nat>
    requires d < |s.objs|
  {
    if SlotValid(s.objs[d].slots, h) && s.objs[d].slots.data[h] < |s.objs|
      && (f.Any? || s.objs[s.objs[d].slots.data[h]].kind == f.kind)
    then Some(s.objs[d].slots.data[h]) else None
  }

  lemma SameSelf(s: State)
    ensures SameAll(s, s)
  {
  }

  lemma BumpSame(s: State, o: nat, d: int, local': multiset<nat>)
    requires o < |s.objs|
    ensures SameAll(s, s.(objs := Bump(s.objs, o, d), local := local'))
  {
  }

  lemma RefSame(s: State, o: nat)
    requires o < |s.objs|
    ensures SameAll(s, s.(objs := Bump(s.objs, o, 1), local := s.local + multiset{o}))
  {
    BumpSame(s, o, 1, s.local + multiset{o});
  }

  lemma TableOk(s: State, d: nat)
    requires Inv(s) && d < |s.objs|
    ensures SlotsOk(s.objs[d].slots) && ChannelOk(s.objs[d])
  {
    assert ObjOk(s, d);
  }

  lemma SlotGained(ob: Obj, slots: Slots, o: nat, l: multiset<nat>)
    requires SlotsOk(ob.slots) && SlotsOk(slots) && SlotRefs(slots) == SlotRefs(ob.slots) + multiset{o} && o in l
    ensures Out(ob.(slots := slots)) + (l - multiset{o}) == Out(ob) + l
  {
    hide SlotRefs, QueueRefs;
    var H, R, Q := multiset(ob.holds), SlotRefs(ob.slots), QueueRefs(ob.Queue());
    assert l - multiset{o} + multiset{o} == l;
    assert H + (R + multiset{o}) + Q + (l - multiset{o}) == H + R + Q + (l - multiset{o} + multiset{o});
  }

  lemma SlotLost(ob: Obj, slots: Slots, o: nat, l: multiset<nat>)
    requires SlotsOk(ob.slots) && SlotsOk(slots) && SlotRefs(ob.slots) == SlotRefs(slots) + multiset{o}
    ensures Out(ob.(slots := slots)) + (l + multiset{o}) == Out(ob) + l
  {
    hide SlotRefs, QueueRefs;
    var H, R, Q := multiset(ob.holds), SlotRefs(slots), QueueRefs(ob.Queue());
    assert H + R + Q + (l + multiset{o}) == H + (R + multiset{o}) + Q + l;
  }

  lemma SameButUpdate(s0: State, s1: State, s2: State, d: nat)
    requires SameAll(s0, s1) && d < |s0.objs|
    requires |s2.objs| == |s1.objs| && s2.objs == s1.objs[d := s2.objs[d]]
    requires s2.global == s1.global && s2.leaked == s1.leaked && s2.destroyed == s1.destroyed
    ensures SameBut(s0, s2, d)
  {
  }

  lemma LocalBack(l: multiset<nat>, o: nat)
    ensures l + multiset{o} - multiset{o} == l
  {
  }

  lemma FrameAfterSlot(s0: State, s1: State, s2: State, d: nat)
    requires d < |s0.objs| && Frame(s1, s2) && Alive(s2, d)
    requires s1 == s0.(objs := s1.objs, local := s1.local) && |s1.objs| == |s0.objs|
      && s1.objs == s0.objs[d := s1.objs[d]]
    ensures FrameBut(s0, s2, d) && SameObj(s1.objs[d], s2.objs[d])
  {
  }

  lemma {:induction false} SlotDataHeld(s: Slots, h: nat, n: nat)
    requires SlotsOk(s) && h < n <= |s.used| && s.used[h]
    ensures s.data[h] in RefsUpTo(s, n)
  {
    if h < n - 1 { SlotDataHeld(s, h, n - 1); }
  }

  lemma {:induction false} OutInTotal(objs: seq<Obj>, d: nat, o: nat)
    requires AllSlotsOk(objs) && d < |objs| && o in Out(objs[d])
    ensures o in Total(objs)
    decreases |objs|
  {
    if d < |objs| - 1 { OutInTotal(objs[..|objs| - 1], d, o); }
  }

  /** What a valid handle names is alive. */
  lemma SlotIsAlive(s: State, d: nat, h: nat)
    requires Inv(s) && d < |s.objs| && SlotValid(s.objs[d].slots, h)
    ensures Alive(s, s.objs[d].slots.data[h])
  {
    var slots := s.objs[d].slots;
    SlotDataHeld(slots, h, |slots.used|);
    OutInTotal(s.objs, d, slots.data[h]);
    HeldIsAlive(s, slots.data[h]);
  }

  lemma NoRefs(s: Slots)
    requires SlotsOk(s)
    ensures RefsUpTo(s, 0) == multiset{}
  {
  }

  lemma SplitRefs(l0: multiset<nat>, l: multiset<nat>, H: multiset<nat>, R: multiset<nat>)
    requires H + R <= l0 && l + R == l0
    ensures H <= l
    ensures forall m: multiset<nat> | m + H == l :: m + H + R == l0
  {
    forall x ensures H[x] <= l[x] {
      assert (H + R)[x] <= l0[x] && (l + R)[x] == l0[x];
    }
  }

  lemma LocalIsAlive(s: State, o: nat)
    requires Inv(s) && o in s.local
    ensures o < |s.objs| && o in s.global && s.objs[o].refs >= 1 && SlotsOk(s.objs[o].slots)
  {
    assert o in Holders(s);
    HeldIsAlive(s, o);
  }

  lemma FrameSelf(s: State)
    ensures Frame(s, s)
  {
  }

  lemma RemoveListed(s: State, i: nat)
    requires Inv(s) && i < |s.global|
    ensures WithoutOne(s.global, s.global[..i] + s.global[i + 1..], s.global[i])
  {
    var q, q' := s.global, s.global[..i] + s.global[i + 1..];
    assert Distinct(q);
    hide Inv;
    forall a, b | 0 <= a < b < |q'| ensures q'[a] != q'[b] {
      assert q'[a] == q[if a < i then a else a + 1] && q'[b] == q[if b < i then b else b + 1];
    }
    forall p ensures p in q' <==> p in q && p != q[i] {
      RemovedMember(q, i, p);
    }
  }

  lemma RemovedMember(q: seq<nat>, i: nat, p: nat)
    requires Distinct(q) && i < |q|
    ensures p in q[..i] + q[i + 1..] <==> p in q && p != q[i]
  {
    assert q == q[..i] + [q[i]] + q[i + 1..];
    assert q[i] !in q[..i] && q[i] !in q[i + 1..];
  }

  lemma Enough(l: multiset<nat>, o: nat, H: multiset<nat>, R: multiset<nat>)
    ensures H + R <= l - multiset{o} + H + R
  {
  }

  lemma DropAll(m: multiset<nat>, l: multiset<nat>, H: multiset<nat>, R: multiset<nat>)
    requires m + H + R == l + H + R
    ensures m == l
  {
    Cancel(m + H, l + H, R);
    Cancel(m, l, H);
  }

  lemma StillHeld(l0: multiset<nat>, l: multiset<nat>, slots: Slots, i: nat)
    requires SlotsOk(slots) && i < |slots.used|
    requires SlotRefs(slots) <= l0 && l + RefsUpTo(slots, i) == l0
    ensures slots.used[i] ==> slots.data[i] in l
    ensures slots.used[i] ==> l - multiset{slots.data[i]} + RefsUpTo(slots, i + 1) == l0
    ensures !slots.used[i] ==> l + RefsUpTo(slots, i + 1) == l0
  {
    RefsGrow(slots, i + 1, |slots.used|);
    assert RefsUpTo(slots, i + 1)
      == RefsUpTo(slots, i) + (if slots.used[i] then multiset{slots.data[i]} else multiset{});
    if slots.used[i] {
      var x := slots.data[i];
      assert (l + RefsUpTo(slots, i))[x] >= RefsUpTo(slots, i + 1)[x];
    }
  }

  lemma {:induction false} RefsGrow(s: Slots, i: nat, n: nat)
    requires SlotsOk(s) && i <= n <= |s.used|
    ensures RefsUpTo(s, i) <= RefsUpTo(s, n)
    decreases n
  {
    if i < n { RefsGrow(s, i, n - 1); }
  }

  lemma NextHold(l0: multiset<nat>, l: multiset<nat>, holds: seq<nat>, i: nat)
    requires i < |holds| && l + multiset(holds[..i]) == l0 && multiset(holds) <= l0
    ensures holds[i] in l
    ensures l - multiset{holds[i]} + multiset(holds[..i + 1]) == l0
  {
    assert holds[..i + 1] == holds[..i] + [holds[i]];
    assert holds == holds[..i + 1] + holds[i + 1..];
    var x := holds[i];
    assert multiset(holds)[x] == multiset(holds[..i])[x] + 1 + multiset(holds[i + 1..])[x];
    assert l0[x] == l[x] + multiset(holds[..i])[x];
  }
}
