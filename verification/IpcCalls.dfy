/** Calls between processes (libs/ipc/hooks.c): a value is packed, sent through a channel, received and unpacked. */
module IpcCalls {
  import opened Basics
  import opened Bits
  import opened IpcFormat
  import opened IpcBuffers
  import C = Capabilities
  import Containers
  import Kernel
  import ChannelRuns

  // ----- Handles mean the same on both sides ---------------------------------------------------

  function UpTo(n: nat): (r: set<nat>)
    ensures forall i: nat :: i in r <==> i <= n
  {
    if n == 0 then {0} else UpTo(n - 1) + {n}
  }

  /** The message of ipc_hook_call: the memory object, then the handles of the value. */
  function CallMsg(memory: nat, handles: seq<nat>, info: nat): (m: C.Msg)
    requires |handles| <= MAX_HANDLES
    ensures |m.args| == C.ARGS
  {
    C.Msg(UpTo(|handles|), [memory] + handles + seq(MAX_HANDLES - |handles|, _ => 0), info)
  }

  lemma CallArgs(memory: nat, handles: seq<nat>, info: nat, i: nat)
    requires |handles| <= MAX_HANDLES
    ensures var m := CallMsg(memory, handles, info);
            && 0 in m.flags && m.args[0] == memory
            && (i < |handles| ==> i + 1 in m.flags && m.args[i + 1] == handles[i])
            && (i > |handles| ==> i !in m.flags)
  {
  }

  /** Some handles are good in a table. */
  ghost predicate AllGood(table: map<nat, nat>, handles: seq<nat>) {
    forall i | 0 <= i < |handles| :: handles[i] in table
  }

  lemma GoodIsNamed(s: C.State, d: nat, h: nat)
    requires C.Inv(s) && d < |s.objs| && Containers.SlotsOk(s.objs[d].slots)
    ensures Kernel.Named(s, d, h, C.Any).Some? <==> h in Containers.Handles(s.objs[d].slots)
  {
    hide C.Inv;
    if Containers.SlotValid(s.objs[d].slots, h) {
      Kernel.SlotIsAlive(s, d, h);
    }
  }

  /** The message of a call can be sent exactly if the memory object's handle and all handles of the value are good. */
  lemma CallSendable(s: C.State, d: nat, memory: nat, handles: seq<nat>, info: nat)
    requires C.Inv(s) && d < |s.objs| && Containers.SlotsOk(s.objs[d].slots) && |handles| <= MAX_HANDLES
    ensures Kernel.Sendable(s, Some(d), CallMsg(memory, handles, info))
       <==> var table := Containers.Handles(s.objs[d].slots); memory in table && AllGood(table, handles)
  {
    hide C.Inv, Containers.Handles, Kernel.Named, CallMsg;
    var table, msg := Containers.Handles(s.objs[d].slots), CallMsg(memory, handles, info);
    CallArgs(memory, handles, info, 0);
    forall i: nat | i < C.ARGS ensures Kernel.Named(s, d, msg.args[i], C.Any).Some? <==> msg.args[i] in table {
      GoodIsNamed(s, d, msg.args[i]);
    }
    if Kernel.Sendable(s, Some(d), msg) {
      forall i: nat | i < |handles| ensures handles[i] in table {
        CallArgs(memory, handles, info, i);
      }
      assert memory in table;
    } else {
      var i: nat :| i < C.ARGS && i in msg.flags && Kernel.Named(s, d, msg.args[i], C.Any).None?;
      CallArgs(memory, handles, info, i);
      if i > 0 {
        CallArgs(memory, handles, info, i - 1);
      }
    }
  }

  /** The objects behind some handles. */
  ghost function Objects(table: map<nat, nat>, handles: seq<nat>): seq<Option<nat>> {
    seq(|handles|, i requires 0 <= i < |handles| => if handles[i] in table then Some(table[handles[i]]) else None)
  }

  /** What a value means to a process: the value without its handle numbers, and the objects they name. */
  ghost function Meaning(v: Value, table: map<nat, nat>): (Value, seq<Option<nat>>)
  {
    (Renamed(v, seq(|HandlesOf(v)|, _ => 0)), Objects(table, HandlesOf(v)))
  }

  lemma SameObjects(t: map<nat, nat>, hs: seq<nat>, t': map<nat, nat>, hs': seq<nat>)
    requires |hs| == |hs'| && forall i: nat | i < |hs| :: hs'[i] in t' && hs[i] in t && t'[hs'[i]] == t[hs[i]]
    ensures Objects(t', hs') == Objects(t, hs) && forall o | o in Objects(t', hs') :: o.Some?
  {
  }

  /** A value keeps its meaning if its message is delivered. */
  lemma MeaningDelivered(s: C.State, d: nat, v: Value, memory: nat, info: nat, r: seq<nat>, before: Containers.Slots,
                         after: Containers.Slots)
    requires d < |s.objs| && Containers.SlotsOk(s.objs[d].slots) && |HandlesOf(v)| <= MAX_HANDLES
    requires var msg := CallMsg(memory, HandlesOf(v), info);
             && Kernel.Sendable(s, Some(d), msg)
             && Kernel.Delivered(Kernel.Packed(s, Some(d), msg).objs, msg.args, r, before, after, C.ARGS)
    ensures |r| == C.ARGS
      && Meaning(Renamed(v, r[1..]), Containers.Handles(after)) == Meaning(v, Containers.Handles(s.objs[d].slots))
    ensures forall o | o in Objects(Containers.Handles(after), HandlesOf(Renamed(v, r[1..]))) :: o.Some?
    ensures var from, to := Containers.Handles(s.objs[d].slots), Containers.Handles(after);
            memory in from && r[0] in to && to[r[0]] == from[memory]
  {
    assert |r| == C.ARGS;
    hide Kernel.Sendable, Kernel.Packed, Kernel.Delivered, Renamed, HandlesOf, Containers.Handles, Containers.SlotsOk,
      CallMsg, Objects;
    var hs := HandlesOf(v);
    var msg := CallMsg(memory, hs, info);
    var got := Renamed(v, r[1..]);
    RenamedHandles(v, r[1..]);
    CallArgs(memory, hs, info, 0);
    Kernel.ThroughChannel(s, d, msg, r, before, after, 0);
    assert HandlesOf(got) == r[1..][..|hs|];
    forall i: nat | i < |hs|
      ensures HandlesOf(got)[i] in Containers.Handles(after) && hs[i] in Containers.Handles(s.objs[d].slots)
      ensures Containers.Handles(after)[HandlesOf(got)[i]] == Containers.Handles(s.objs[d].slots)[hs[i]]
    {
      CallArgs(memory, hs, info, i);
      assert HandlesOf(got)[i] == r[i + 1];
      Kernel.ThroughChannel(s, d, msg, r, before, after, i + 1);
    }
    SameObjects(Containers.Handles(s.objs[d].slots), hs, Containers.Handles(after), HandlesOf(got));
    RenamedTwice(v, r[1..], seq(|hs|, _ => 0));
  }

  lemma CallInfo(memory: nat, handles: seq<nat>, info: nat)
    requires |handles| <= MAX_HANDLES
    ensures CallMsg(memory, handles, info).info == info
  {
  }

  // ----- Over any run --------------------------------------------------------------------------

  /** Over any run of the kernel: a value sent as the j-th message of a channel means the same to whoever takes the j-th
      message as it meant to the sender when it was sent. */
  lemma MeaningPreserved(log: ChannelRuns.Log, c: nat, u: nat, t: nat, v: Value, memory: nat, info: nat)
    requires ChannelRuns.LogOk(log) && ChannelRuns.Matched(log, c, u, t) && |HandlesOf(v)| <= MAX_HANDLES
    requires log.acts[u].domain.Some? && log.acts[t].domain.Some?
    requires log.acts[u].msg == CallMsg(memory, HandlesOf(v), info)
    ensures var d, e, args := log.acts[u].domain.value, log.acts[t].domain.value, log.acts[t].msg.args;
            && d < |log.states[u].objs| && e < |log.states[t + 1].objs| && |args| == C.ARGS
            && Containers.SlotsOk(log.states[u].objs[d].slots) && Containers.SlotsOk(log.states[t + 1].objs[e].slots)
            && Meaning(Renamed(v, args[1..]), Containers.Handles(log.states[t + 1].objs[e].slots))
               == Meaning(v, Containers.Handles(log.states[u].objs[d].slots))
            && log.acts[t].msg.info == info
            && var from, to := Containers.Handles(log.states[u].objs[d].slots),
                               Containers.Handles(log.states[t + 1].objs[e].slots);
               memory in from && args[0] in to && to[args[0]] == from[memory]
  {
    ChannelRuns.MatchedParcel(log, c, u, t);
    ChannelRuns.TakeIsThere(log, c, t);
    var s, d, e := log.states[u], log.acts[u].domain.value, log.acts[t].domain.value;
    CallInfo(memory, HandlesOf(v), info);
    hide Containers.Handles, Containers.Contents, Kernel.Delivered, Kernel.Sendable, Meaning, Renamed, HandlesOf,
      CallMsg;
    hide ChannelRuns.LogOk, ChannelRuns.Matched;
    MeaningDelivered(s, d, v, memory, info, log.acts[t].msg.args, log.states[t].objs[e].slots,
      log.states[t + 1].objs[e].slots);
  }

  // ----- One call ------------------------------------------------------------------------------

  lemma PackedMsg(s: C.State, d: nat, msg: C.Msg)
    requires |msg.args| == C.ARGS && d < |s.objs|
    ensures Kernel.Packed(s, Some(d), msg).msg == msg
  {
  }

  lemma QueueSize(s: C.State, c: nat)
    requires C.Inv(s) && c < |s.objs|
    ensures |s.objs[c].Queue()| == s.objs[c].ring.used
  {
    Kernel.TableOk(s, c);
    Containers.ContentsSize(s.objs[c].ring);
  }

  lemma AfterReceive(s: C.State, s': C.State, c: nat, e: nat)
    requires C.Alive(s, c) && s.objs[c].Queue() != [] && exists msg :: Kernel.Received(s, s', c, Some(e), msg)
    ensures C.Alive(s', c) && s'.objs[c].Queue() == s.objs[c].Queue()[1..]
  {
    assert C.Alive(s', c);
    assert Kernel.ReceivedAt(s, s', c, Some(e), c);
  }

  /** The way of one value: packed and sent from domain d, and received into domain e after all messages that were in
      the channel before it. Whoever is in domain e sees what the sender meant. */
  method Transfer(k: Kernel.KernelState, c: nat, d: nat, e: nat, v: Value, sh: Shape, memory: nat, info: nat)
    returns (r: Kernel.Result, out: Value, mem: nat)
    requires k.Valid() && C.Alive(k.S(), c) && d in k.local && e in k.local
    requires Typed(v, sh) && |HandlesOf(v)| <= MAX_HANDLES
    modifies k
    ensures k.Valid() && k.local == old(k.local) && d < |old(k.objs)| && e < |k.objs|
    ensures Containers.SlotsOk(old(k.objs)[d].slots) && Containers.SlotsOk(k.objs[e].slots)
    ensures var table := Containers.Handles(old(k.objs)[d].slots);
            r == if |old(k.objs)[c].Queue()| == 256 then Kernel.ChannelFull
                 else if memory in table && AllGood(table, HandlesOf(v)) then Kernel.Success
                 else Kernel.BadHandle
    ensures r != Kernel.Success ==> k.S() == old(k.S())
    ensures r == Kernel.Success ==>
      && Meaning(out, Containers.Handles(k.objs[e].slots)) == Meaning(v, Containers.Handles(old(k.objs)[d].slots))
      && C.Alive(k.S(), c) && k.objs[c].Queue() == []
      && var from, to := Containers.Handles(old(k.objs)[d].slots), Containers.Handles(k.objs[e].slots);
         memory in from && mem in to && to[mem] == from[memory]
  {
    hide C.Inv, Kernel.SameBut, Kernel.Sendable, Kernel.Delivered, Kernel.Packed, Containers.Contents,
      Containers.Handles;
    hide Renamed, HandlesOf, Encode, Meaning, CallMsg, Typed;
    ghost var s0 := k.S();
    Kernel.LocalIsAlive(s0, d);
    Kernel.LocalIsAlive(s0, e);
    QueueSize(s0, c);
    var earlier := k.objs[c].ring.used;
    var p := new Pack();
    p.PackValue(v);
    assert p.handles == HandlesOf(v);
    var msg := CallMsg(memory, p.handles, info);
    Kernel.TableOk(s0, d);
    Kernel.TableOk(s0, e);
    CallSendable(s0, d, memory, HandlesOf(v), info);
    r := k.ChannelSend(c, Some(d), msg);
    out, mem := v, 0;
    assert p.buf[..][..p.curr] == p.buf[..p.curr] == Encode(v);
    if r != Kernel.Success { return; }
    ghost var s1 := k.S();
    Kernel.LocalIsAlive(s1, e);
    Kernel.SameButAlive(s0, s1, c);
    ghost var q := k.objs[c].Queue();
    var i: nat := 0;
    while i < earlier
      invariant i <= earlier && k.Valid() && k.local == s0.local && C.Alive(k.S(), c) && k.objs[c].Queue() == q[i..]
      modifies k
    {
      ghost var s := k.S();
      var got, _ := k.ChannelRecv(c, Some(e));
      AfterReceive(s, k.S(), c, e);
      i := i + 1;
    }
    ghost var s := k.S();
    var got, answer := k.ChannelRecv(c, Some(e));
    AfterReceive(s, k.S(), c, e);
    assert s.objs[c].Queue()[0] == Kernel.Packed(s0, Some(d), msg);
    PackedMsg(s0, d, msg);
    MeaningDelivered(s0, d, v, memory, info, answer.args, s.objs[e].slots, k.objs[e].slots);
    mem := answer.args[0];
    out := Open(p.buf[..], sh, v, answer.args[1..]);
  }
}
