/** Blocking channel operations (kernel/channel.c, sched_block in kernel/sched.c): a call that waits is one atomic
    operation or none at all, whatever runs between its polls. */
module BlockingIpc {
  import opened Basics
  import S = SchedState
  import Scheduler
  import C = Capabilities
  import Containers
  import Kernel

  // ----- The blocker functions -----------------------------------------------------------------

  /** An attempt of channel_send_unlock that takes the kernel from s to s'. */
  ghost predicate SendStep(c: nat, domain: Option<nat>, msg: C.Msg, s: C.State, s': C.State, r: Kernel.Result) {
    && c < |s.objs| && |msg.args| == C.ARGS && (domain.Some? ==> C.Alive(s, domain.value))
    && (r == Kernel.ChannelFull <==> |s.objs[c].Queue()| == C.CHANNEL_SIZE)
    && (r != Kernel.Success ==> s' == s)
    && (r == Kernel.Success ==>
          && c < |s'.objs| && Kernel.Sendable(s, domain, msg) && Kernel.SameBut(s, s', c)
          && s'.objs[c].Queue() == s.objs[c].Queue() + [Kernel.Packed(s, domain, msg)])
  }

  /** An attempt of channel_recv_unlock. */
  ghost predicate RecvStep(c: nat, domain: Option<nat>, s: C.State, s': C.State, r: Kernel.Result) {
    && c < |s.objs|
    && (r == Kernel.ChannelEmpty <==> s.objs[c].Queue() == [])
    && (r == Kernel.ChannelEmpty ==> s' == s)
    && (r != Kernel.ChannelEmpty ==> r == Kernel.Success && exists msg :: Kernel.Received(s, s', c, domain, msg))
  }

  ghost function SendOp(c: nat, domain: Option<nat>, msg: C.Msg): Op<C.State> {
    (s, s', r) => SendStep(c, domain, msg, s, s', r)
  }

  ghost function RecvOp(c: nat, domain: Option<nat>): Op<C.State> {
    (s, s', r) => RecvStep(c, domain, s, s', r)
  }

  /** channel_wait_send; `locked` tells that somebody else holds the channel's lock. */
  method WaitSend(k: Kernel.KernelState, locked: bool, c: nat, domain: Option<nat>, msg: C.Msg)
    returns (fires: bool, r: Kernel.Result)
    requires k.Valid() && C.Alive(k.S(), c) && |msg.args| == C.ARGS && (domain.Some? ==> C.Alive(k.S(), domain.value))
    modifies k
    ensures k.Valid()
    ensures fires == Fires(locked, Kernel.ChannelFull, r)
    ensures Attempt(SendOp(c, domain, msg), locked, old(k.S()), k.S(), r)
  {
    hide Containers.Contents, C.Inv;
    if locked {
      return false, Kernel.ChannelFull;
    }
    r := k.ChannelSend(c, domain, msg);
    fires := r != Kernel.ChannelFull;
  }

  /** channel_wait_recv. */
  method WaitRecv(k: Kernel.KernelState, locked: bool, c: nat, domain: Option<nat>)
    returns (fires: bool, r: Kernel.Result, msg: C.Msg)
    requires k.Valid() && C.Alive(k.S(), c) && (domain.Some? ==> domain.value in k.local)
    modifies k
    ensures k.Valid()
    ensures fires == Fires(locked, Kernel.ChannelEmpty, r)
    ensures Attempt(RecvOp(c, domain), locked, old(k.S()), k.S(), r)
    ensures fires && r == Kernel.Success ==> Kernel.Received(old(k.S()), k.S(), c, domain, msg)
  {
    hide Kernel.Received, Containers.Contents, C.Inv;
    if locked {
      return false, Kernel.ChannelEmpty, C.Msg({}, [], 0);
    }
    r, msg := k.ChannelRecv(c, domain);
    fires := r != Kernel.ChannelEmpty;
  }

  // ----- Episodes ------------------------------------------------------------------------------

  /** What one call to an operation may do: from, to, and the operation's result. */
  type Op<!W> = (W, W, Kernel.Result) -> bool

  /** Whether a blocker function returns true. */
  predicate Fires(locked: bool, busy: Kernel.Result, r: Kernel.Result) {
    !locked && r != busy
  }

  ghost predicate Attempt<W(!new)>(op: Op<W>, locked: bool, from: W, to: W, r: Kernel.Result) {
    if locked then to == from else op(from, to, r)
  }

  /** `busy` (full or empty) is the result that asks for another try; such a try must have changed nothing. */
  ghost predicate RetryIsClean<W(!new)>(op: Op<W>, busy: Kernel.Result) {
    forall from, to, r {:trigger op(from, to, r)} :: op(from, to, r) && r == busy ==> to == from
  }

  datatype Phase = Calling | Waiting | Done(result: S.BlockResult)

  /** A blocking call in progress: the shared state, the caller's task and the last result of its operation. */
  datatype Episode<W> = Episode(world: W, phase: Phase, task: S.Task, last: Kernel.Result)

  /** A step of anybody else; sched_stop on the caller; sched_block calls the function and then may block;
      sched_updated_blocked comes by. */
  datatype Event<W> =
    | Others(to: W)
    | Stopped
    | Enter(locked: bool, to: W, r: Kernel.Result, deadline: Option<nat>)
    | Visit(locked: bool, to: W, r: Kernel.Result, tick: nat)

  ghost predicate Step<W(!new)>(op: Op<W>, busy: Kernel.Result, e: Episode<W>, ev: Event<W>, e': Episode<W>) {
    match ev
    case Others(to) => e' == e.(world := to)
    case Stopped => e' == e.(task := e.task.(stopped := true))
    case Enter(locked, to, r, deadline) =>
      && e.phase.Calling? && Attempt(op, locked, e.world, to, r)
      && e'.world == to && e'.last == (if locked then e.last else r)
      && (Fires(locked, busy, r) ==> e'.phase == Done(S.Success) && e'.task == e.task)
      && (!Fires(locked, busy, r) ==>
            && e'.phase == Waiting
            && e'.task == e.task.(blocked := true, blocker := S.Blocker(true, deadline, S.Success)))
    case Visit(locked, to, r, tick) =>
      if !e.phase.Waiting? then e' == e
      else
        && Attempt(op, locked, e.world, to, r)
        && e'.world == to && e'.last == (if locked then e.last else r)
        && e'.task == Scheduler.Polled(e.task, Fires(locked, busy, r), tick)
        && e'.phase == if e'.task.blocked then Waiting else Done(e'.task.blocker.result)
  }

  /** A whole run of one episode, from a fresh call on. */
  ghost predicate Trace<W(!new)>(op: Op<W>, busy: Kernel.Result, es: seq<Episode<W>>, evs: seq<Event<W>>) {
    && |es| == |evs| + 1 && es[0].phase.Calling? && !es[0].task.blocked
    && forall i | 0 <= i < |evs| :: Step(op, busy, es[i], evs[i], es[i + 1])
  }

  /** At event i the blocker function returned true. */
  ghost predicate Commits<W>(busy: Kernel.Result, e: Episode<W>, ev: Event<W>) {
    || (ev.Enter? && e.phase.Calling? && Fires(ev.locked, busy, ev.r))
    || (ev.Visit? && e.phase.Waiting? && Fires(ev.locked, busy, ev.r))
  }

  ghost predicate NoCommit<W>(busy: Kernel.Result, es: seq<Episode<W>>, evs: seq<Event<W>>, n: nat)
    requires n <= |evs| < |es|
  {
    forall i | 0 <= i < n :: !Commits(busy, es[i], evs[i])
  }

  ghost predicate OnlyCommit<W(!new)>(op: Op<W>, busy: Kernel.Result, es: seq<Episode<W>>, evs: seq<Event<W>>, n: nat,
                               k: nat)
    requires n <= |evs| < |es|
  {
    && k < n && Commits(busy, es[k], evs[k]) && op(es[k].world, es[k + 1].world, evs[k].r) && evs[k].r != busy
    && es[n].last == evs[k].r
    && forall i | 0 <= i < n && i != k :: !Commits(busy, es[i], evs[i])
  }

  /** The task is blocked exactly while it waits. */
  ghost predicate Agrees<W>(e: Episode<W>) {
    e.task.blocked == e.phase.Waiting? && (e.phase.Waiting? ==> e.task.blocker.polled)
  }

  /** The blocker function returns true at most once, and the call succeeds exactly if it did. */
  lemma {:induction false} FiresOnce<W(!new)>(op: Op<W>, busy: Kernel.Result, es: seq<Episode<W>>, evs: seq<Event<W>>,
                                       n: nat)
    requires Trace(op, busy, es, evs) && n <= |evs|
    ensures Agrees(es[n])
    ensures es[n].phase == Done(S.Success) ==> exists k: nat :: OnlyCommit(op, busy, es, evs, n, k)
    ensures es[n].phase != Done(S.Success) ==> NoCommit(busy, es, evs, n)
  {
    if n > 0 {
      var m := n - 1;
      FiresOnce(op, busy, es, evs, m);
      assert Step(op, busy, es[m], evs[m], es[m + 1]);
      if es[m].phase == Done(S.Success) {
        var k: nat :| OnlyCommit(op, busy, es, evs, m, k);
        assert OnlyCommit(op, busy, es, evs, n, k);
      } else if Commits(busy, es[m], evs[m]) {
        assert OnlyCommit(op, busy, es, evs, n, m);
      }
    }
  }

  /** A step of the caller that is not the commit leaves the shared state alone. */
  lemma OnlyCommitsChange<W(!new)>(op: Op<W>, busy: Kernel.Result, e: Episode<W>, ev: Event<W>, e': Episode<W>)
    requires RetryIsClean(op, busy) && Step(op, busy, e, ev, e') && !ev.Others? && !Commits(busy, e, ev)
    ensures e'.world == e.world
  {
  }

  /** The state when this call is left out: only the others' steps, here given as the changes they make. */
  ghost predicate Untouched<W>(es: seq<Episode<W>>, evs: seq<Event<W>>, from: nat, to: nat) {
    && from <= to <= |evs| < |es|
    && forall i | from <= i < to && !evs[i].Others? :: es[i + 1].world == es[i].world
  }

  /** All or nothing: success means one completed operation at one moment, and a timeout or an interruption (or a call
      still waiting) means none; at all other moments this call changed nothing. */
  lemma AllOrNothing<W(!new)>(op: Op<W>, busy: Kernel.Result, es: seq<Episode<W>>, evs: seq<Event<W>>)
    requires RetryIsClean(op, busy) && Trace(op, busy, es, evs)
    ensures es[|evs|].phase == Done(S.Success) <==>
      exists k: nat ::
        OnlyCommit(op, busy, es, evs, |evs|, k) && Untouched(es, evs, 0, k) && Untouched(es, evs, k + 1, |evs|)
    ensures es[|evs|].phase != Done(S.Success) <==> NoCommit(busy, es, evs, |evs|)
    ensures es[|evs|].phase != Done(S.Success) ==> Untouched(es, evs, 0, |evs|)
  {
    var n := |evs|;
    FiresOnce(op, busy, es, evs, n);
    forall i | 0 <= i < n && !evs[i].Others? && !Commits(busy, es[i], evs[i]) ensures es[i + 1].world == es[i].world {
      assert Step(op, busy, es[i], evs[i], es[i + 1]);
      OnlyCommitsChange(op, busy, es[i], evs[i], es[i + 1]);
    }
    if es[n].phase == Done(S.Success) {
      var k: nat :| OnlyCommit(op, busy, es, evs, n, k);
      assert Untouched(es, evs, 0, k) && Untouched(es, evs, k + 1, n);
    }
  }

  /** A timeout needs a poll after the deadline, an interruption a stop. */
  lemma {:induction false} WhyGivenUp<W(!new)>(op: Op<W>, busy: Kernel.Result, es: seq<Episode<W>>, evs: seq<Event<W>>,
                                        n: nat)
    requires Trace(op, busy, es, evs) && n <= |evs|
    ensures es[n].phase == Done(S.Interrupted) ==> es[0].task.stopped || exists i :: 0 <= i < n && evs[i].Stopped?
    ensures es[n].task.stopped ==> es[0].task.stopped || exists i :: 0 <= i < n && evs[i].Stopped?
    ensures es[n].phase.Waiting? || es[n].phase == Done(S.Timeout) ==> exists i ::
      0 <= i < n && evs[i].Enter? && es[n].task.blocker.deadline == evs[i].deadline
    ensures es[n].phase == Done(S.Timeout) ==> es[n].task.blocker.deadline.Some? && exists i ::
      0 <= i < n && evs[i].Visit? && es[n].task.blocker.deadline.value < evs[i].tick
  {
    if n > 0 {
      var m := n - 1;
      WhyGivenUp(op, busy, es, evs, m);
      FiresOnce(op, busy, es, evs, m);
      assert Step(op, busy, es[m], evs[m], es[m + 1]);
    }
  }

  // ----- The two blocking calls ----------------------------------------------------------------

  /** Both channel operations leave everything alone when they ask for another try. */
  lemma ChannelRetriesAreClean(c: nat, domain: Option<nat>, msg: C.Msg)
    ensures RetryIsClean(SendOp(c, domain, msg), Kernel.ChannelFull)
    ensures RetryIsClean(RecvOp(c, domain), Kernel.ChannelEmpty)
  {
  }

  /** At step k, and only there, the call did its work. */
  ghost predicate OnlyAt<W>(es: seq<Episode<W>>, evs: seq<Event<W>>, k: nat) {
    k < |evs| && Untouched(es, evs, 0, k) && Untouched(es, evs, k + 1, |evs|)
  }

  /** channel_send_blocking: if it reports success, the message was queued last at exactly one moment; if it reports a
      bad handle, a timeout or an interruption, or still waits, it changed nothing. */
  lemma SendBlocking(c: nat, domain: Option<nat>, msg: C.Msg, es: seq<Episode<C.State>>, evs: seq<Event<C.State>>)
    requires Trace(SendOp(c, domain, msg), Kernel.ChannelFull, es, evs)
    ensures var e := es[|evs|];
            && (e.phase == Done(S.Success) && e.last == Kernel.Success ==>
                  exists k: nat ::
                    OnlyAt(es, evs, k) && SendStep(c, domain, msg, es[k].world, es[k + 1].world, Kernel.Success))
            && (e.phase != Done(S.Success) || e.last != Kernel.Success ==> Untouched(es, evs, 0, |evs|))
            && (e.phase == Done(S.Success) ==> e.last != Kernel.ChannelFull)
  {
    var op, n := SendOp(c, domain, msg), |evs|;
    ChannelRetriesAreClean(c, domain, msg);
    AllOrNothing(op, Kernel.ChannelFull, es, evs);
    hide Trace, SendStep;
    if es[n].phase == Done(S.Success) {
      var k: nat :| OnlyCommit(op, Kernel.ChannelFull, es, evs, n, k) && Untouched(es, evs, 0, k)
        && Untouched(es, evs, k + 1, n);
      assert OnlyAt(es, evs, k) && SendStep(c, domain, msg, es[k].world, es[k + 1].world, es[n].last);
      if es[n].last != Kernel.Success {
        SendFails(c, domain, msg, es[k].world, es[k + 1].world, es[n].last);
        Joined(es, evs, k);
      }
    }
  }

  lemma SendFails(c: nat, domain: Option<nat>, msg: C.Msg, s: C.State, s': C.State, r: Kernel.Result)
    requires SendStep(c, domain, msg, s, s', r) && r != Kernel.Success
    ensures s' == s
  {
  }

  lemma Joined<W>(es: seq<Episode<W>>, evs: seq<Event<W>>, k: nat)
    requires OnlyAt(es, evs, k) && |es| > |evs| && es[k + 1].world == es[k].world
    ensures Untouched(es, evs, 0, |evs|)
  {
  }

  /** channel_recv_blocking: if it succeeds, the oldest message was taken and delivered at exactly one moment; otherwise
      it changed nothing. */
  lemma RecvBlocking(c: nat, domain: Option<nat>, es: seq<Episode<C.State>>, evs: seq<Event<C.State>>)
    requires Trace(RecvOp(c, domain), Kernel.ChannelEmpty, es, evs)
    ensures var e := es[|evs|];
            && (e.phase == Done(S.Success) ==> e.last == Kernel.Success)
            && (e.phase == Done(S.Success) ==>
                  exists k: nat ::
                    OnlyAt(es, evs, k) && RecvStep(c, domain, es[k].world, es[k + 1].world, Kernel.Success))
            && (e.phase != Done(S.Success) ==> Untouched(es, evs, 0, |evs|))
  {
    var op, n := RecvOp(c, domain), |evs|;
    ChannelRetriesAreClean(c, domain, C.Msg({}, [], 0));
    AllOrNothing(op, Kernel.ChannelEmpty, es, evs);
    if es[n].phase == Done(S.Success) {
      var k: nat :| OnlyCommit(op, Kernel.ChannelEmpty, es, evs, n, k) && Untouched(es, evs, 0, k)
        && Untouched(es, evs, k + 1, n);
      hide Trace, Kernel.Received;
      assert OnlyAt(es, evs, k) && RecvStep(c, domain, es[k].world, es[k + 1].world, es[n].last);
    }
  }
}
