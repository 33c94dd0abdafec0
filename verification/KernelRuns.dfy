/** Any run of the capability kernel. Code that runs in the kernel names objects only through the references it
    holds. */
module KernelRuns {
  import opened Basics
  import opened Containers
  import opened Capabilities
  import opened Kernel
  import opened ChannelRuns

  /** Objects are given by their place among the references held, a missing domain by None. */
  datatype Step =
    | Create(kind: Kind, places: seq<nat>) // takes over these references, as a task does with space and domain
    | Drop(place: nat)
    | Add(domain: nat, target: nat)
    | Remove(domain: nat, handle: int)
    | Lookup(domain: nat, handle: int, filter: Filter)
    | LookupGlobal(id: nat, filter: Filter)
    | Send(channel: nat, sender: Option<nat>, msg: Msg)
    | Recv(channel: nat, receiver: Option<nat>)

  /** What the invariant means for one object: its counter is the number of its holders, it is listed exactly while it
      is held, and its destructor has run exactly if it no longer is, and then once. */
  ghost predicate Accounted(s: State, o: nat) {
    && AllSlotsOk(s.objs) && o < |s.objs|
    && s.objs[o].refs == Total(s.objs)[o] + s.local[o] + s.leaked[o]
    && (o in s.global <==> s.objs[o].refs >= 1)
    && multiset(s.global)[o] <= 1
    && multiset(s.destroyed)[o] == if s.objs[o].refs == 0 then 1 else 0
  }

  lemma {:induction false} Once(q: seq<nat>, o: nat)
    requires Distinct(q)
    ensures multiset(q)[o] == if o in q then 1 else 0
  {
    if q != [] {
      var n := |q| - 1;
      Once(q[..n], o);
      assert q == q[..n] + [q[n]];
    }
  }

  lemma InvAccounts(s: State, o: nat)
    requires Inv(s) && o < |s.objs|
    ensures Accounted(s, o)
  {
    hide Total;
    assert ObjOk(s, o);
    Once(s.global, o);
    Once(s.destroyed, o);
  }

  lemma Take(mine: seq<nat>, i: nat)
    requires i < |mine|
    ensures mine[i] in multiset(mine) && multiset(mine[..i] + mine[i + 1..]) == multiset(mine) - multiset{mine[i]}
  {
    assert mine == mine[..i] + [mine[i]] + mine[i + 1..];
  }

  lemma Held(s: State, mine: seq<nat>, i: nat)
    requires Inv(s) && s.local == multiset(mine) && i < |mine|
    ensures mine[i] in s.local && Alive(s, mine[i])
  {
    hide Inv;
    LocalIsAlive(s, mine[i]);
  }

  // ----- What a step does ----------------------------------------------------------------------

  predicate Present(mine: seq<nat>, place: Option<nat>) {
    place.Some? ==> place.value < |mine|
  }

  function At(mine: seq<nat>, place: Option<nat>): Option<nat>
    requires Present(mine, place)
  {
    match place case Some(i) => Some(mine[i]) case None => None
  }

  /** What a step must have done, given the state before it: a send completes exactly if the channel has room and all
      flagged handles are good, a receive exactly if there is a message, a removal exactly if the handle is good. */
  ghost predicate Explains(s: State, mine: seq<nat>, step: Step, act: Act) {
    match step
    case Add(d, o) =>
      if d < |mine| && o < |mine| then act.Gained? && act.owner == mine[d] && act.target == mine[o] else act == Quiet
    case Send(c, d, msg) =>
      if c < |mine| && mine[c] < |s.objs| && (d.Some? ==> d.value < |mine|) && |msg.args| == 5
         && |s.objs[mine[c]].Queue()| < 256 && Sendable(s, if d.Some? then Some(mine[d.value]) else None, msg)
      then act == Sent(mine[c], if d.Some? then Some(mine[d.value]) else None, msg) else act == Quiet
    case Recv(c, d) =>
      if c < |mine| && mine[c] < |s.objs| && (d.Some? ==> d.value < |mine|) && s.objs[mine[c]].Queue() != []
      then act.Took? && act.channel == mine[c] && act.domain == (if d.Some? then Some(mine[d.value]) else None)
      else act == Quiet
    case Remove(d, h) =>
      if d < |mine| && mine[d] < |s.objs| && SlotsOk(s.objs[mine[d]].slots) && h >= 0
        && h in Handles(s.objs[mine[d]].slots)
      then act == Removed(mine[d], h) else act == Quiet
    case _ => act == Quiet
  }

  /** The references in hand after a step: a look-up finds exactly what is named, a creation adds the new object. */
  ghost predicate HandsAfter(s: State, mine: seq<nat>, step: Step, s': State, mine': seq<nat>) {
    match step
    case Create(kind, places) =>
      exists holds: seq<nat> ::
        s'.objs == s.objs + [Obj(kind, 1, holds, NO_SLOTS, NoRing())] && Handed(mine, places, holds, |s.objs|, mine')
    case Drop(i) => mine' == if i < |mine| then mine[..i] + mine[i + 1..] else mine
    case Lookup(d, h, f) =>
      var found := if d < |mine| && mine[d] < |s.objs| then Named(s, mine[d], h, f) else None;
      mine' == if found.Some? then mine + [found.value] else mine
    case LookupGlobal(id, f) =>
      var found := id in s.global && id < |s.objs| && (f.Any? || s.objs[id].kind == f.kind);
      mine' == if found then mine + [id] else mine
    case _ => mine' == mine
  }

  /** The new object took over the references at the given places, if they were all there. */
  ghost predicate Handed(mine: seq<nat>, places: seq<nat>, holds: seq<nat>, o: nat, mine': seq<nat>) {
    && multiset(holds) + multiset(mine') == multiset(mine) + multiset{o}
    && ((forall i | 0 <= i < |places| :: places[i] < |mine| - i) ==> |holds| == |places|)
  }

  function WithFound(mine: seq<nat>, o: Option<nat>): seq<nat> {
    match o case Some(x) => mine + [x] case None => mine
  }

  lemma QuietMoves(s: State, s': State)
    requires Inv(s) && Inv(s') && (Frame(s, s') || SameAll(s, s'))
    ensures Moves(s, Quiet, s')
  {
    hide Contents, Handles;
    forall o: nat | Alive(s', o) ensures ObjMoves(s, Quiet, s', o) {
      TableOk(s, o);
      TableOk(s', o);
    }
  }

  lemma CreateMoves(s: State, s': State, ob: Obj)
    requires Inv(s) && s'.objs == s.objs + [ob] && s'.global == s.global + [|s.objs|] && ob.Queue() == []
    ensures Moves(s, Quiet, s')
  {
    hide Contents, Handles;
    forall o: nat | Alive(s', o) ensures ObjMoves(s, Quiet, s', o) {
      if o < |s.objs| { TableOk(s, o); }
    }
  }

  /** A handle table changed by growing or by losing one handle. */
  lemma TableMoves(s: State, act: Act, s': State, d: nat)
    requires Inv(s) && Inv(s') && (SameBut(s, s', d) || FrameBut(s, s', d)) && Tables(s, s', d) && Alive(s, d)
    requires s'.objs[d].ring == s.objs[d].ring
    requires (act.Gained? && GainedOk(s, act, s')) || (act.Removed? && act.owner == d)
    requires HandlesKept(s.objs[d].slots, s'.objs[d].slots, d, act)
    ensures Moves(s, act, s')
  {
    hide Contents, Handles;
    forall o: nat | Alive(s', o) ensures ObjMoves(s, act, s', o) {
      TableOk(s, o);
      TableOk(s', o);
    }
  }

  lemma SendMoves(s: State, s': State, act: Act)
    requires Inv(s) && Inv(s') && SentOk(s, act) && SameBut(s, s', act.channel)
    requires s'.objs[act.channel].slots == s.objs[act.channel].slots
    requires s'.objs[act.channel].Queue() == s.objs[act.channel].Queue() + [Packed(s, act.domain, act.msg)]
    ensures Moves(s, act, s')
  {
    hide Contents, Handles, Packed;
    forall o: nat | Alive(s', o) ensures ObjMoves(s, act, s', o) {
      TableOk(s, o);
      TableOk(s', o);
    }
  }

  lemma TakeMoves(s: State, s': State, act: Act)
    requires Inv(s) && Inv(s') && act.Took? && Alive(s, act.channel)
    requires Received(s, s', act.channel, act.domain, act.msg)
    ensures Moves(s, act, s')
  {
    hide Contents, Handles;
    forall o: nat | Alive(s', o) ensures ObjMoves(s, act, s', o) {
      TableOk(s, o);
      TableOk(s', o);
      assert ReceivedAt(s, s', act.channel, act.domain, o);
    }
  }

  // ----- Runs ----------------------------------------------------------------------------------

  lemma OneOver(a: multiset<nat>, b: multiset<nat>, x: nat, all: multiset<nat>)
    requires a + b == all && x in b
    ensures (a + multiset{x}) + (b - multiset{x}) == all
  {
  }

  /** Takes the references at the given places out of hand; a place counts in what is left. */
  method HandOver(mine: seq<nat>, places: seq<nat>) returns (holds: seq<nat>, rest: seq<nat>)
    ensures multiset(holds) + multiset(rest) == multiset(mine)
    ensures (forall i | 0 <= i < |places| :: places[i] < |mine| - i) ==> |holds| == |places|
  {
    holds, rest := [], mine;
    for i := 0 to |places|
      invariant multiset(holds) + multiset(rest) == multiset(mine) && |holds| <= i && |rest| + |holds| == |mine|
      invariant (forall j | 0 <= j < i :: places[j] < |mine| - j) ==> |holds| == i
    {
      if places[i] < |rest| {
        var x := rest[places[i]];
        Take(rest, places[i]);
        OneOver(multiset(holds), multiset(rest), x, multiset(mine));
        assert multiset(holds + [x]) == multiset(holds) + multiset{x};
        holds, rest := holds + [x], rest[..places[i]] + rest[places[i] + 1..];
      }
    }
  }

  method Perform(k: KernelState, step: Step, mine: seq<nat>) returns (mine': seq<nat>, ghost act: Act)
    requires k.Valid() && k.local == multiset(mine)
    modifies k
    ensures k.Valid() && k.local == multiset(mine')
    ensures Explains(old(k.S()), mine, step, act) && Moves(old(k.S()), act, k.S())
    ensures HandsAfter(old(k.S()), mine, step, k.S(), mine')
  {
    hide Inv, Moves, Contents, Sendable, Named, Handed;
    mine', act := mine, Quiet;
    StillMoves(k.S());
    match step
    case Create(kind, places) => mine' := DoCreate(k, kind, places, mine);
    case Drop(i) =>
      if i < |mine| {
        mine' := DoDrop(k, i, mine);
      }
    case Add(d, o) =>
      if d < |mine| && o < |mine| {
        act := DoAdd(k, d, o, mine);
      }
    case Remove(d, h) =>
      if d < |mine| {
        act := DoRemove(k, d, h, mine);
      }
    case Lookup(d, h, f) =>
      if d < |mine| {
        mine' := DoLookup(k, Some(mine[d]), h, f, mine);
      }
    case LookupGlobal(id, f) => mine' := DoLookup(k, None, id, f, mine);
    case Send(c, d, msg) =>
      if c < |mine| && Present(mine, d) && |msg.args| == ARGS {
        act := DoSend(k, c, d, msg, mine);
      }
    case Recv(c, d) =>
      if c < |mine| && Present(mine, d) {
        act := DoRecv(k, c, d, mine);
      }
  }

  method DoCreate(k: KernelState, kind: Kind, places: seq<nat>, mine: seq<nat>) returns (mine': seq<nat>)
    requires k.Valid() && k.local == multiset(mine)
    modifies k
    ensures k.Valid() && k.local == multiset(mine') && Moves(old(k.S()), Quiet, k.S())
    ensures HandsAfter(old(k.S()), mine, Create(kind, places), k.S(), mine')
  {
    hide Inv, Moves, Contents, Handed, NoRing;
    ghost var s := k.S();
    var holds, rest := HandOver(mine, places);
    Rest(multiset(mine), multiset(holds), multiset(rest));
    var o := k.ObjectInit(kind, holds);
    mine' := rest + [o];
    NowHanded(mine, places, holds, rest, o);
    NoRingIsEmpty();
    CreateMoves(s, k.S(), k.objs[o]);
  }

  lemma NowHanded(mine: seq<nat>, places: seq<nat>, holds: seq<nat>, rest: seq<nat>, o: nat)
    requires multiset(holds) + multiset(rest) == multiset(mine)
    requires (forall i | 0 <= i < |places| :: places[i] < |mine| - i) ==> |holds| == |places|
    ensures Handed(mine, places, holds, o, rest + [o])
  {
    assert multiset(holds) + multiset(rest + [o]) == multiset(holds) + multiset(rest) + multiset{o};
  }

  lemma Rest(all: multiset<nat>, a: multiset<nat>, b: multiset<nat>)
    requires a + b == all
    ensures a <= all && all - a == b
  {
  }

  method DoDrop(k: KernelState, i: nat, mine: seq<nat>) returns (mine': seq<nat>)
    requires k.Valid() && k.local == multiset(mine) && i < |mine|
    modifies k
    ensures k.Valid() && k.local == multiset(mine') && Moves(old(k.S()), Quiet, k.S())
    ensures mine' == mine[..i] + mine[i + 1..]
  {
    hide Inv, Frame, Moves;
    ghost var s := k.S();
    Take(mine, i);
    k.ObjectDeref(mine[i]);
    mine' := mine[..i] + mine[i + 1..];
    QuietMoves(s, k.S());
  }

  method DoAdd(k: KernelState, d: nat, o: nat, mine: seq<nat>) returns (ghost act: Act)
    requires k.Valid() && k.local == multiset(mine) && d < |mine| && o < |mine|
    modifies k
    ensures k.Valid() && k.local == multiset(mine)
    ensures Explains(old(k.S()), mine, Add(d, o), act) && Moves(old(k.S()), act, k.S())
  {
    hide Inv, SameBut, Moves, Handles, SlotsOk;
    ghost var s := k.S();
    Held(s, mine, d);
    Held(s, mine, o);
    var h := k.DomainAdd(mine[d], mine[o]);
    act := Gained(mine[d], h, mine[o]);
    TableMoves(s, act, k.S(), mine[d]);
  }

  method DoRemove(k: KernelState, d: nat, h: int, mine: seq<nat>) returns (ghost act: Act)
    requires k.Valid() && k.local == multiset(mine) && d < |mine|
    modifies k
    ensures k.Valid() && k.local == multiset(mine)
    ensures Explains(old(k.S()), mine, Remove(d, h), act) && Moves(old(k.S()), act, k.S())
  {
    hide Inv, FrameBut, Moves, Handles, SlotsOk;
    ghost var s := k.S();
    Held(s, mine, d);
    StillMoves(s);
    var r := k.DomainRemove(mine[d], h);
    act := Quiet;
    if r == Success {
      act := Removed(mine[d], h);
      TableMoves(s, act, k.S(), mine[d]);
    }
  }

  lemma ListedIsObject(s: State)
    requires Inv(s)
    ensures forall o | o in s.global :: o < |s.objs|
  {
  }

  /** A look-up in a domain, or in the global table. */
  method DoLookup(k: KernelState, d: Option<nat>, h: int, f: Filter, mine: seq<nat>) returns (mine': seq<nat>)
    requires k.Valid() && k.local == multiset(mine) && (d.Some? ==> d.value in mine) && (d.None? ==> h >= 0)
    modifies k
    ensures k.Valid() && k.local == multiset(mine') && Moves(old(k.S()), Quiet, k.S())
    ensures d.Some? ==> d.value < |old(k.objs)| && mine' == WithFound(mine, Named(old(k.S()), d.value, h, f))
    ensures d.None? ==>
      var found := h in old(k.global) && h < |old(k.objs)| && (f.Any? || old(k.objs)[h].kind == f.kind);
      mine' == WithFound(mine, if found then Some(h) else None)
  {
    hide Inv, SameAll, Moves, Named;
    ghost var s := k.S();
    var o;
    match d {
      case Some(domain) =>
        LocalIsAlive(s, domain);
        o := k.DomainLookup(domain, h, f);
      case None =>
        ListedIsObject(s);
        o := k.GlobalLookup(h, f);
    }
    mine' := WithFound(mine, o);
    QuietMoves(s, k.S());
  }

  lemma StillMoves(s: State)
    requires Inv(s)
    ensures Moves(s, Quiet, s)
  {
    SameSelf(s);
    QuietMoves(s, s);
  }

  lemma QueueFits(s: State, o: nat)
    requires Inv(s) && o < |s.objs|
    ensures SlotsOk(s.objs[o].slots) && |s.objs[o].Queue()| <= CHANNEL_SIZE
  {
    TableOk(s, o);
    ContentsSize(s.objs[o].ring);
  }

  method DoSend(k: KernelState, c: nat, d: Option<nat>, msg: Msg, mine: seq<nat>) returns (ghost act: Act)
    requires k.Valid() && k.local == multiset(mine) && c < |mine| && Present(mine, d) && |msg.args| == ARGS
    modifies k
    ensures k.Valid() && k.local == old(k.local)
    ensures Explains(old(k.S()), mine, Send(c, d, msg), act) && Moves(old(k.S()), act, k.S())
  {
    hide Inv, SameBut, Sendable, Moves, Contents, Packed, SlotsOk;
    ghost var s := k.S();
    Held(s, mine, c);
    QueueFits(s, mine[c]);
    if d.Some? { Held(s, mine, d.value); QueueFits(s, mine[d.value]); }
    StillMoves(s);
    var r := k.ChannelSend(mine[c], At(mine, d), msg);
    act := Quiet;
    if r == Success {
      act := Sent(mine[c], At(mine, d), msg);
      SendMoves(s, k.S(), act);
    }
  }

  method DoRecv(k: KernelState, c: nat, d: Option<nat>, mine: seq<nat>) returns (ghost act: Act)
    requires k.Valid() && k.local == multiset(mine) && c < |mine| && Present(mine, d)
    modifies k
    ensures k.Valid() && k.local == old(k.local)
    ensures Explains(old(k.S()), mine, Recv(c, d), act) && Moves(old(k.S()), act, k.S())
  {
    hide Inv, Received, Moves, Contents;
    ghost var s := k.S();
    Held(s, mine, c);
    if d.Some? { Held(s, mine, d.value); }
    StillMoves(s);
    var r, msg := k.ChannelRecv(mine[c], At(mine, d));
    act := Quiet;
    if r == Success {
      act := Took(mine[c], At(mine, d), msg);
      TakeMoves(s, k.S(), act);
    }
  }

  /** Over any run: every object is accounted for, and the log of the run says what each step did to channels and
      handles. */
  method Run(k: KernelState, steps: seq<Step>, first: seq<nat>)
    returns (mine: seq<nat>, ghost log: Log, ghost hands: seq<seq<nat>>)
    requires k.Valid() && k.local == multiset(first)
    modifies k
    ensures k.Valid() && k.local == multiset(mine)
    ensures forall o: nat | o < |k.objs| :: Accounted(k.S(), o)
    ensures LogOk(log) && |log.acts| == |steps| && log.states[0] == old(k.S()) && log.states[|steps|] == k.S()
    ensures |hands| == |steps| + 1 && hands[0] == first && hands[|steps|] == mine
    ensures forall i | 0 <= i < |steps| :: Explains(log.states[i], hands[i], steps[i], log.acts[i])
    ensures forall i | 0 <= i < |steps| ::
      HandsAfter(log.states[i], hands[i], steps[i], log.states[i + 1], hands[i + 1])
  {
    hide Inv, Accounted, Moves, Explains, HandsAfter;
    mine, log, hands := first, Log([k.S()], []), [first];
    for i := 0 to |steps|
      invariant k.Valid() && k.local == multiset(mine)
      invariant |log.acts| == i && |log.states| == i + 1 && log.states[0] == old(k.S()) && log.states[i] == k.S()
      invariant |hands| == i + 1 && hands[0] == first && hands[i] == mine
      invariant forall j: nat | j < i :: Moves(log.states[j], log.acts[j], log.states[j + 1])
      invariant forall j | 0 <= j < i :: Explains(log.states[j], hands[j], steps[j], log.acts[j])
      invariant forall j | 0 <= j < i :: HandsAfter(log.states[j], hands[j], steps[j], log.states[j + 1], hands[j + 1])
    {
      ghost var act;
      mine, act := Perform(k, steps[i], mine);
      log, hands := Log(log.states + [k.S()], log.acts + [act]), hands + [mine];
    }
    forall o: nat | o < |k.objs| ensures Accounted(k.S(), o) {
      InvAccounts(k.S(), o);
    }
  }
}
