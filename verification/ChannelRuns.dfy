/** What channels and handle tables do over any run of the capability kernel, as a sequence of states. */
module ChannelRuns {
  import opened Basics
  import opened Containers
  import opened Capabilities
  import opened Kernel

  /** What a step did to channels and handles: nothing, a completed send, a completed receive with the message as it was
      delivered, the removal of a handle, or a new handle for an object. */
  datatype Act =
    | Quiet
    | Sent(channel: nat, domain: Option<nat>, msg: Msg)
    | Took(channel: nat, domain: Option<nat>, msg: Msg)
    | Removed(owner: nat, handle: int)
    | Gained(owner: nat, name: nat, target: nat)

  /** A run: the states it went through and what happened between them. */
  datatype Log = Log(states: seq<State>, acts: seq<Act>)

  ghost predicate SentOk(s: State, act: Act) {
    && act.Sent? && Alive(s, act.channel) && |act.msg.args| == ARGS && Sendable(s, act.domain, act.msg)
    && (act.domain.Some? ==> act.domain.value < |s.objs| && SlotsOk(s.objs[act.domain.value].slots))
  }

  /** The queue of object o after a step. */
  ghost function QueueAfter(s: State, act: Act, o: nat): seq<Parcel>
    requires o < |s.objs|
  {
    var q := s.objs[o].Queue();
    if SentOk(s, act) && act.channel == o then q + [Packed(s, act.domain, act.msg)]
    else if act.Took? && act.channel == o && q != [] then q[1..]
    else q
  }

  /** Every handle is still there and names the same object, unless it was removed. */
  ghost predicate HandlesKept(s: Slots, s': Slots, o: nat, act: Act) {
    && SlotsOk(s) && SlotsOk(s')
    && forall h: nat | h in Handles(s) && act != Removed(o, h) :: h in Handles(s') && Handles(s')[h] == Handles(s)[h]
  }

  /** An object that is alive after a step was so before, or it is new and empty. */
  ghost predicate ObjMoves(s: State, act: Act, s': State, o: nat) {
    && o < |s'.objs|
    && (o < |s.objs| ==>
          && Alive(s, o) && s'.objs[o].Queue() == QueueAfter(s, act, o)
          && HandlesKept(s.objs[o].slots, s'.objs[o].slots, o, act))
    && (o >= |s.objs| ==> s'.objs[o].Queue() == [])
  }

  /** The new handle was free, names the object, and nothing else changed in the table. */
  ghost predicate GainedOk(s: State, act: Act, s': State) {
    && act.Gained? && Tables(s, s', act.owner) && act.name !in Handles(s.objs[act.owner].slots)
    && Handles(s'.objs[act.owner].slots) == Handles(s.objs[act.owner].slots)[act.name := act.target]
  }

  ghost predicate Moves(s: State, act: Act, s': State) {
    && |s.objs| <= |s'.objs|
    && (forall o: nat {:trigger ObjMoves(s, act, s', o)} | Alive(s', o) :: ObjMoves(s, act, s', o))
    && (act.Sent? ==> SentOk(s, act))
    && (act.Took? ==> Alive(s, act.channel) && Received(s, s', act.channel, act.domain, act.msg))
    && (act.Gained? ==> GainedOk(s, act, s'))
  }

  ghost predicate LogOk(log: Log) {
    && |log.states| == |log.acts| + 1
    && forall i: nat {:trigger log.acts[i]} | i < |log.acts| :: Moves(log.states[i], log.acts[i], log.states[i + 1])
  }

  /** The parcels sent to c in the first n steps: message and objects as they were named at that time. */
  ghost function SentTo(log: Log, c: nat, n: nat): seq<Parcel>
    requires |log.states| > |log.acts| >= n
  {
    if n == 0 then []
    else
      var s, a := log.states[n - 1], log.acts[n - 1];
      SentTo(log, c, n - 1) + (if SentOk(s, a) && a.channel == c then [Packed(s, a.domain, a.msg)] else [])
  }

  /** The parcels taken from c in the first n steps. */
  ghost function TakenFrom(log: Log, c: nat, n: nat): seq<Parcel>
    requires |log.states| > |log.acts| >= n
  {
    if n == 0 then []
    else
      var s, a := log.states[n - 1], log.acts[n - 1];
      TakenFrom(log, c, n - 1) +
      (if a.Took? && a.channel == c && c < |s.objs| && s.objs[c].Queue() != [] then [s.objs[c].Queue()[0]] else [])
  }

  ghost function QueueAt(log: Log, c: nat, n: nat): seq<Parcel>
    requires n < |log.states|
  {
    if c < |log.states[n].objs| then log.states[n].objs[c].Queue() else []
  }

  // ----- Order ---------------------------------------------------------------------------------

  lemma {:induction false} ObjectsStay(log: Log, i: nat, n: nat)
    requires LogOk(log) && i <= n <= |log.acts|
    ensures |log.states[i].objs| <= |log.states[n].objs|
  {
    if i < n {
      ObjectsStay(log, i, n - 1);
      assert Moves(log.states[n - 1], log.acts[n - 1], log.states[n]);
    }
  }

  /** Nothing happens to a channel before it exists. */
  lemma {:induction false} NotBefore(log: Log, c: nat, n: nat)
    requires LogOk(log) && n <= |log.acts| && c >= |log.states[n].objs|
    ensures SentTo(log, c, n) == [] && TakenFrom(log, c, n) == [] && QueueAt(log, c, 0) == []
  {
    ObjectsStay(log, 0, n);
    if n > 0 {
      ObjectsStay(log, n - 1, n);
      NotBefore(log, c, n - 1);
    }
  }

  /** Messages leave a channel in the order in which they were sent: nothing is lost, repeated or overtaken. */
  lemma {:induction false} SendOrder(log: Log, c: nat, n: nat)
    requires LogOk(log) && n <= |log.acts| && Alive(log.states[n], c)
    ensures QueueAt(log, c, 0) + SentTo(log, c, n) == TakenFrom(log, c, n) + QueueAt(log, c, n)
  {
    hide Contents, Received, Packed, HandlesKept, Sendable;
    if n > 0 {
      var m := n - 1;
      var s, a, s' := log.states[m], log.acts[m], log.states[n];
      assert Moves(s, a, s') && ObjMoves(s, a, s', c);
      if c < |s.objs| {
        SendOrder(log, c, m);
        OrderStep(QueueAt(log, c, 0), SentTo(log, c, m), TakenFrom(log, c, m), s.objs[c].Queue());
      } else {
        NotBefore(log, c, m);
      }
    }
  }

  lemma OrderStep(q0: seq<Parcel>, sent: seq<Parcel>, taken: seq<Parcel>, q: seq<Parcel>)
    requires q0 + sent == taken + q
    ensures forall p: Parcel :: q0 + (sent + [p]) == taken + (q + [p])
    ensures q != [] ==> q0 + sent == (taken + [q[0]]) + q[1..]
    ensures sent + [] == sent && taken + [] == taken
  {
    forall p: Parcel ensures q0 + (sent + [p]) == taken + (q + [p]) {
      assert q0 + (sent + [p]) == (q0 + sent) + [p];
    }
  }

  // ----- Delivery ------------------------------------------------------------------------------

  lemma {:induction false} SentGrows(log: Log, c: nat, i: nat, n: nat)
    requires LogOk(log) && i <= n <= |log.acts|
    ensures SentTo(log, c, i) <= SentTo(log, c, n)
  {
    if i < n {
      SentGrows(log, c, i, n - 1);
    }
  }

  /** The send of step u and the receive of step t belong together if as many messages went in before the one as came
      out before the other. */
  ghost predicate Matched(log: Log, c: nat, u: nat, t: nat) {
    && |log.states| == |log.acts| + 1 && u < |log.acts| && t < |log.acts|
    && log.acts[u].Sent? && log.acts[u].channel == c && log.acts[t].Took? && log.acts[t].channel == c
    && |QueueAt(log, c, 0)| + |SentTo(log, c, u)| == |TakenFrom(log, c, t)|
  }

  /** What the j-th receive takes is the very parcel of the j-th send, which came before it. */
  lemma MatchedParcel(log: Log, c: nat, u: nat, t: nat)
    requires LogOk(log) && Matched(log, c, u, t)
    ensures u < t && SentOk(log.states[u], log.acts[u])
    ensures QueueAt(log, c, t) != []
      && QueueAt(log, c, t)[0] == Packed(log.states[u], log.acts[u].domain, log.acts[u].msg)
  {
    hide Received, Contents;
    assert Moves(log.states[u], log.acts[u], log.states[u + 1]) && Moves(log.states[t], log.acts[t], log.states[t + 1]);
    TakeIsThere(log, c, t);
    SendOrder(log, c, t);
    var q0, sent, taken, q := QueueAt(log, c, 0), SentTo(log, c, t), TakenFrom(log, c, t), QueueAt(log, c, t);
    var j := |SentTo(log, c, u)|;
    assert |q0| + |sent| == |taken| + |q|;
    if u >= t {
      SentGrows(log, c, t, u);
      assert false;
    }
    SentGrows(log, c, u + 1, t);
    assert q[0] == (taken + q)[|taken|] == (q0 + sent)[|q0| + j] == sent[j] == SentTo(log, c, u + 1)[j];
  }

  lemma TakeIsThere(log: Log, c: nat, t: nat)
    requires LogOk(log) && t < |log.acts| && log.acts[t].Took? && log.acts[t].channel == c
    ensures Alive(log.states[t], c) && QueueAt(log, c, t) != []
    ensures Received(log.states[t], log.states[t + 1], c, log.acts[t].domain, log.acts[t].msg)
  {
    assert Moves(log.states[t], log.acts[t], log.states[t + 1]);
  }

  /** Every receive has its send, once the messages that were there at the start are gone. */
  lemma EveryTakeWasSent(log: Log, c: nat, t: nat) returns (u: nat)
    requires LogOk(log) && t < |log.acts| && log.acts[t].Took? && log.acts[t].channel == c
    requires |TakenFrom(log, c, t)| >= |QueueAt(log, c, 0)|
    ensures Matched(log, c, u, t)
  {
    hide Received, Contents;
    TakeIsThere(log, c, t);
    SendOrder(log, c, t);
    var q0, sent, taken, q := QueueAt(log, c, 0), SentTo(log, c, t), TakenFrom(log, c, t), QueueAt(log, c, t);
    assert |q0| + |sent| == |taken| + |q|;
    u := FindSend(log, c, t, |taken| - |q0|);
  }

  lemma {:induction false} FindSend(log: Log, c: nat, n: nat, j: nat) returns (u: nat)
    requires LogOk(log) && n <= |log.acts| && j < |SentTo(log, c, n)|
    ensures u < n && log.acts[u].Sent? && log.acts[u].channel == c && |SentTo(log, c, u)| == j
  {
    if j < |SentTo(log, c, n - 1)| {
      u := FindSend(log, c, n - 1, j);
    } else {
      u := n - 1;
    }
  }

  /** Every flagged argument of a message becomes a handle of the receiver that names the very object which the sender's
      handle named when the message was sent; the other arguments arrive as they are. */
  lemma ObjectsArrive(log: Log, c: nat, u: nat, t: nat, i: nat)
    requires LogOk(log) && Matched(log, c, u, t) && i < ARGS
    requires log.acts[u].domain.Some? && log.acts[t].domain.Some?
    ensures var d, e, msg, msg' := log.acts[u].domain.value, log.acts[t].domain.value, log.acts[u].msg, log.acts[t].msg;
            && d < |log.states[u].objs| && e < |log.states[t + 1].objs| && |msg.args| == |msg'.args| == ARGS
            && SlotsOk(log.states[u].objs[d].slots) && SlotsOk(log.states[t + 1].objs[e].slots)
            && msg'.flags == msg.flags && msg'.info == msg.info
            && var from, to := Handles(log.states[u].objs[d].slots), Handles(log.states[t + 1].objs[e].slots);
               && (i in msg.flags ==>
                 msg.args[i] in from && msg'.args[i] in to && to[msg'.args[i]] == from[msg.args[i]])
               && (i !in msg.flags ==> msg'.args[i] == msg.args[i])
  {
    MatchedParcel(log, c, u, t);
    TakeIsThere(log, c, t);
    var s, a, e := log.states[u], log.acts[u], log.acts[t].domain.value;
    hide Handles, Contents, Delivered, Sendable, Named, LogOk, Matched;
    ThroughChannel(s, a.domain.value, a.msg, log.acts[t].msg.args, log.states[t].objs[e].slots,
                   log.states[t + 1].objs[e].slots, i);
  }

  // ----- Handles -------------------------------------------------------------------------------

  /** As long as its domain lives and nobody removes it, a handle names the same object. */
  lemma {:induction false} HandleStays(log: Log, d: nat, h: nat, i: nat, n: nat)
    requires LogOk(log) && i <= n <= |log.acts| && d < |log.states[i].objs| && Alive(log.states[n], d)
    requires SlotsOk(log.states[i].objs[d].slots) && h in Handles(log.states[i].objs[d].slots)
    requires forall t | i <= t < n :: log.acts[t] != Removed(d, h)
    ensures SlotsOk(log.states[n].objs[d].slots) && h in Handles(log.states[n].objs[d].slots)
    ensures Handles(log.states[n].objs[d].slots)[h] == Handles(log.states[i].objs[d].slots)[h]
  {
    if i < n {
      hide Handles, Received, Contents;
      var m := n - 1;
      ObjectsStay(log, i, m);
      assert Moves(log.states[m], log.acts[m], log.states[n]) && ObjMoves(log.states[m], log.acts[m], log.states[n], d);
      HandleStays(log, d, h, i, m);
    }
  }
}
