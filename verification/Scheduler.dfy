/** The SMP scheduler (kernel/sched.c, kernel/tasking.c). Each method is one section under the scheduler lock, unless it
    says otherwise. */
module Scheduler {
  import opened Basics
  import opened SchedState

  // ----- Eligible tasks ------------------------------------------------------------------------

  /** May have a CPU: started, not waiting, and stopped only inside a system call, which it finishes first. */
  ghost predicate Ready(t: Task) {
    t.started && !t.blocked && (t.stopped ==> t.inSyscall)
  }

  lemma RunnableIsReady(t: Task)
    ensures Runnable(t) <==> Ready(t)
  {
  }

  /** Ready and not yet given a CPU in this tick, in the task's fields. */
  ghost predicate Candidate(t: Task, tick: nat) {
    t.started && !t.blocked && (!t.stopped || t.inSyscall) && t.timeStart != tick
  }

  lemma NoCandidate(tasks: Tasks, queue: seq<nat>, cpus: Cpus, tick: nat)
    ensures NoneEligible(tasks, queue, cpus, tick, |queue|)
       <==> forall t | t in queue && t < |tasks| :: !Candidate(tasks[t], tick) || Running(cpus, t)
  {
    if NoneEligible(tasks, queue, cpus, tick, |queue|) {
      forall t | t in queue && t < |tasks| ensures !Candidate(tasks[t], tick) || Running(cpus, t) {
        var j :| 0 <= j < |queue| && queue[j] == t;
        assert !Eligible(tasks, cpus, tick, queue[j]);
      }
    }
  }

  /** What sched_pick asks of a candidate. */
  ghost predicate Eligible(tasks: Tasks, cpus: Cpus, tick: nat, t: nat) {
    t < |tasks| && tasks[t].timeStart != tick && Ready(tasks[t]) && !Running(cpus, t)
  }

  /** t is eligible, waited longest among queue[..n], and comes first among those that waited as long. */
  ghost predicate Longest(tasks: Tasks, queue: seq<nat>, cpus: Cpus, tick: nat, n: nat, t: nat) {
    && n <= |queue| && Eligible(tasks, cpus, tick, t)
    && exists i | 0 <= i < n ::
         && queue[i] == t
         && (forall j | 0 <= j < i && Eligible(tasks, cpus, tick, queue[j]) ::
           tasks[t].timeEnd < tasks[queue[j]].timeEnd)
         && (forall j | 0 <= j < n && Eligible(tasks, cpus, tick, queue[j]) ::
           tasks[t].timeEnd <= tasks[queue[j]].timeEnd)
  }

  ghost predicate NoneEligible(tasks: Tasks, queue: seq<nat>, cpus: Cpus, tick: nat, n: nat) {
    n <= |queue| && forall j | 0 <= j < n :: !Eligible(tasks, cpus, tick, queue[j])
  }

  /** The queued tasks that have not been given a CPU in this tick. */
  ghost function Waiting(tasks: Tasks, queue: seq<nat>, tick: nat): set<nat> {
    set t | t in queue && t < |tasks| && tasks[t].timeStart != tick
  }

  lemma PickTakes(tasks: Tasks, queue: seq<nat>, cpus: Cpus, tick: nat, n: nat, best: Option<nat>)
    requires n < |queue| && Eligible(tasks, cpus, tick, queue[n])
    requires best.None? ==> NoneEligible(tasks, queue, cpus, tick, n)
    requires best.Some? ==>
      Longest(tasks, queue, cpus, tick, n, best.value) && tasks[queue[n]].timeEnd < tasks[best.value].timeEnd
    ensures Longest(tasks, queue, cpus, tick, n + 1, queue[n])
  {
    assert queue[n] < |tasks| && forall j | 0 <= j < n && Eligible(tasks, cpus, tick, queue[j]) :: queue[j] < |tasks|;
    hide Eligible;
    assert forall j | 0 <= j < n && Eligible(tasks, cpus, tick, queue[j]) ::
      tasks[queue[n]].timeEnd < tasks[queue[j]].timeEnd;
  }

  lemma LongestIsEligible(tasks: Tasks, queue: seq<nat>, cpus: Cpus, tick: nat, n: nat, t: nat)
    requires Longest(tasks, queue, cpus, tick, n, t)
    ensures Eligible(tasks, cpus, tick, t) && !NoneEligible(tasks, queue, cpus, tick, n)
      && t in Waiting(tasks, queue, tick)
  {
  }

  lemma PickKeeps(tasks: Tasks, queue: seq<nat>, cpus: Cpus, tick: nat, n: nat, best: nat)
    requires n < |queue| && Longest(tasks, queue, cpus, tick, n, best)
    requires Eligible(tasks, cpus, tick, queue[n]) ==> tasks[best].timeEnd <= tasks[queue[n]].timeEnd
    ensures Longest(tasks, queue, cpus, tick, n + 1, best)
  {
    hide Eligible;
  }

  lemma {:induction false} WaitingBounded(tasks: Tasks, queue: seq<nat>, tick: nat)
    ensures |Waiting(tasks, queue, tick)| <= |queue|
  {
    if queue == [] {
      assert Waiting(tasks, queue, tick) == {};
    } else {
      var n := |queue| - 1;
      var small, all := Waiting(tasks, queue[..n], tick), Waiting(tasks, queue, tick);
      WaitingBounded(tasks, queue[..n], tick);
      assert queue == queue[..n] + [queue[n]];
      assert all == small || all == small + {queue[n]};
    }
  }

  /** Giving a waiting task a CPU leaves strictly fewer waiting. */
  lemma DispatchShrinks(tasks: Tasks, queue: seq<nat>, tick: nat, old0: nat, t: nat)
    requires old0 < |tasks| && t in Waiting(tasks, queue, tick)
    ensures Waiting(Moved(tasks, old0, t, tick), queue, tick) == Waiting(tasks, queue, tick) - {t}
    ensures |Waiting(Moved(tasks, old0, t, tick), queue, tick)| < |Waiting(tasks, queue, tick)|
  {
    assert Waiting(Moved(tasks, old0, t, tick), queue, tick) == Waiting(tasks, queue, tick) - {t};
  }

  // ----- Waking up blocked tasks ---------------------------------------------------------------

  /** A blocked task after its blocker was polled: success, then deadline, then interruption. */
  function Polled(t: Task, fires: bool, tick: nat): Task {
    if !t.blocked then t
    else if t.blocker.polled && fires then t.(blocked := false, blocker := t.blocker.(result := Success))
    else if t.blocker.deadline.Some?
      && t.blocker.deadline.value < tick then t.(blocked := false, blocker := t.blocker.(result := Timeout))
    else if t.stopped then t.(blocked := false, blocker := t.blocker.(result := Interrupted))
    else t
  }

  ghost function PolledAll(tasks: Tasks, queue: seq<nat>, fires: set<nat>, tick: nat): (r: Tasks)
    ensures |r| == |tasks|
  {
    seq(|tasks|, t requires 0 <= t < |tasks| => if t in queue then Polled(tasks[t], t in fires, tick) else tasks[t])
  }

  /** A blocked task goes on waiting exactly if its function was not true, its deadline has not passed and it was not
      stopped; the first of these that fails is the result. */
  ghost predicate Woken(t: Task, fires: bool, tick: nat, t': Task) {
    var fired, late := t.blocker.polled && fires, t.blocker.deadline.Some? && t.blocker.deadline.value < tick;
    && (t'.blocked <==> !fired && !late && !t.stopped)
    && (!t'.blocked ==>
         && (t'.blocker.result == Success <==> fired)
         && (t'.blocker.result == Timeout <==> !fired && late))
    && t'.started == t.started && t'.stopped == t.stopped && t'.inSyscall == t.inSyscall
  }

  lemma PolledWoken(tasks: Tasks, queue: seq<nat>, fires: set<nat>, tick: nat)
    ensures forall t | t in queue && t < |tasks| && tasks[t].blocked ::
      Woken(tasks[t], t in fires, tick, PolledAll(tasks, queue, fires, tick)[t])
  {
  }

  lemma IdledWoken(was: Tasks, tasks: Tasks, queue: seq<nat>, cpus: Cpus, fires: set<nat>, tick: nat)
    requires |was| == |tasks| && forall t | t in queue && t < |tasks| && was[t].blocked ::
      Woken(was[t], t in fires, tick, tasks[t])
    ensures forall t | t in queue && t < |tasks| && was[t].blocked ::
      Woken(was[t], t in fires, tick, IdledTasks(tasks, cpus, tick, |cpus|)[t])
  {
  }

  lemma PolledNone(tasks: Tasks, fires: set<nat>, tick: nat)
    ensures PolledAll(tasks, [], fires, tick) == tasks
  {
  }

  /** Polling a task again changes nothing more. */
  lemma PollStep(tasks: Tasks, queue: seq<nat>, fires: set<nat>, tick: nat, i: nat)
    requires i < |queue| && queue[i] < |tasks|
    ensures var a, t := PolledAll(tasks, queue[..i], fires, tick), queue[i];
            PolledAll(tasks, queue[..i + 1], fires, tick) == a[t := Polled(a[t], t in fires, tick)]
  {
    var a, b, t := PolledAll(tasks, queue[..i], fires, tick), PolledAll(tasks, queue[..i + 1], fires, tick), queue[i];
    assert queue[..i + 1] == queue[..i] + [t];
    forall k | 0 <= k < |tasks| ensures b[k] == a[t := Polled(a[t], t in fires, tick)][k] {
      assert k in queue[..i + 1] <==> k in queue[..i] || k == t;
    }
  }

  lemma PolledKeeps(tasks: Tasks, queue: seq<nat>, cpus: Cpus, tick: nat, fires: set<nat>)
    requires SchedInv(tasks, queue, cpus, tick)
    ensures SchedInv(PolledAll(tasks, queue, fires, tick), queue, cpus, tick)
  {
    var tasks' := PolledAll(tasks, queue, fires, tick);
    forall d: nat | d < |cpus| ensures CpuOk(tasks', queue, cpus, d) {
      assert CpuOk(tasks, queue, cpus, d);
    }
  }

  /** CPU c must give up its current task. */
  ghost predicate Stuck(tasks: Tasks, cpus: Cpus, c: nat) {
    c < |cpus| && cpus[c].current < |tasks| && !Ready(tasks[cpus[c].current])
  }

  /** The first n CPUs, with those that must give up their task sent to their idle task. */
  ghost function IdledCpus(tasks: Tasks, cpus: Cpus, n: nat): (r: Cpus)
    ensures |r| == |cpus|
  {
    seq(|cpus|, c requires 0 <= c < |cpus| => if c < n
      && Stuck(tasks, cpus, c) then cpus[c].(next := Some(cpus[c].idle)) else cpus[c])
  }

  ghost predicate SentHome(tasks: Tasks, cpus: Cpus, n: nat, t: nat) {
    exists c: nat {:trigger Stuck(tasks, cpus, c)} :: c < n && Stuck(tasks, cpus, c) && cpus[c].idle == t
  }

  ghost predicate PutAside(tasks: Tasks, cpus: Cpus, n: nat, t: nat) {
    exists c: nat {:trigger Stuck(tasks, cpus, c)} :: c < n && Stuck(tasks, cpus, c) && cpus[c].next == Some(t)
  }

  ghost function IdledTasks(tasks: Tasks, cpus: Cpus, tick: nat, n: nat): (r: Tasks)
    ensures |r| == |tasks|
  {
    seq(|tasks|, t requires 0 <= t < |tasks| =>
      tasks[t].(timeStart := if SentHome(tasks, cpus, n, t) then tick else tasks[t].timeStart,
                timeEnd := if PutAside(tasks, cpus, n, t) then tick else tasks[t].timeEnd))
  }

  lemma IdledNone(tasks: Tasks, cpus: Cpus, tick: nat)
    ensures IdledCpus(tasks, cpus, 0) == cpus && IdledTasks(tasks, cpus, tick, 0) == tasks
  {
    var a := IdledTasks(tasks, cpus, tick, 0);
    forall t | 0 <= t < |tasks| ensures a[t] == tasks[t] {
      assert !SentHome(tasks, cpus, 0, t) && !PutAside(tasks, cpus, 0, t);
    }
  }

  lemma NotYetIdled(tasks: Tasks, cpus: Cpus, n: nat)
    requires n < |cpus|
    ensures IdledCpus(tasks, cpus, n)[n] == cpus[n]
  {
  }

  lemma IdledFree(tasks: Tasks, cpus: Cpus, tick: nat, n: nat)
    requires n < |cpus| && !Stuck(tasks, cpus, n)
    ensures IdledCpus(tasks, cpus, n + 1) == IdledCpus(tasks, cpus, n)
    ensures IdledTasks(tasks, cpus, tick, n + 1) == IdledTasks(tasks, cpus, tick, n)
  {
    var a, b := IdledTasks(tasks, cpus, tick, n), IdledTasks(tasks, cpus, tick, n + 1);
    forall t | 0 <= t < |tasks| ensures a[t] == b[t] {
      assert SentHome(tasks, cpus, n + 1, t) == SentHome(tasks, cpus, n, t);
      assert PutAside(tasks, cpus, n + 1, t) == PutAside(tasks, cpus, n, t);
    }
  }

  lemma IdledOne(tasks: Tasks, queue: seq<nat>, cpus: Cpus, tick: nat, n: nat)
    requires SchedInv(tasks, queue, cpus, tick) && n < |cpus| && Stuck(tasks, cpus, n)
    ensures cpus[n].next.Some? && cpus[n].next.value < |tasks| && cpus[n].idle < |tasks|
    ensures IdledCpus(tasks, cpus, n + 1) == Placed(IdledCpus(tasks, cpus, n), n, cpus[n].idle)
    ensures IdledTasks(tasks, cpus, tick, n + 1)
      == Moved(IdledTasks(tasks, cpus, tick, n), cpus[n].next.value, cpus[n].idle, tick)
  {
    assert CpuOk(tasks, queue, cpus, n);
    var out, home := cpus[n].next.value, cpus[n].idle;
    var a, b := IdledTasks(tasks, cpus, tick, n), IdledTasks(tasks, cpus, tick, n + 1);
    forall t | 0 <= t < |tasks| ensures b[t] == Moved(a, out, home, tick)[t] {
      assert SentHome(tasks, cpus, n + 1, t) == (SentHome(tasks, cpus, n, t) || t == home);
      assert PutAside(tasks, cpus, n + 1, t) == (PutAside(tasks, cpus, n, t) || t == out);
    }
  }

  /** The idle task of c is next nowhere else, however many CPUs were sent home. */
  lemma HomeIsFree(tasks: Tasks, queue: seq<nat>, cpus: Cpus, tick: nat, c: nat)
    requires SchedInv(tasks, queue, cpus, tick) && c < |cpus|
    ensures MayRun(queue, cpus, c, cpus[c].idle)
  {
    forall d: nat | d < |cpus| && d != c ensures cpus[d].next != Some(cpus[c].idle) {
      assert CpuOk(tasks, queue, cpus, c) && CpuOk(tasks, queue, cpus, d);
    }
  }

  /** Being runnable does not depend on times. */
  lemma IdledReady(tasks: Tasks, cpus: Cpus, tick: nat, n: nat)
    ensures forall t | 0 <= t < |tasks| :: Ready(IdledTasks(tasks, cpus, tick, n)[t]) == Ready(tasks[t])
  {
  }

  /** A task that stays on its CPU is runnable or is that CPU's idle task. */
  ghost predicate OnlyRunnableStay(tasks: Tasks, cpus: Cpus) {
    forall c {:trigger cpus[c]} | 0 <= c < |cpus| && cpus[c].next == Some(cpus[c].current) ::
      cpus[c].current == cpus[c].idle || (cpus[c].current < |tasks| && Ready(tasks[cpus[c].current]))
  }

  lemma IdledStay(tasks: Tasks, queue: seq<nat>, cpus: Cpus, tick: nat)
    requires SchedInv(tasks, queue, cpus, tick)
    ensures OnlyRunnableStay(IdledTasks(tasks, cpus, tick, |cpus|), IdledCpus(tasks, cpus, |cpus|))
  {
    forall d: nat | d < |cpus| ensures cpus[d].current < |tasks| {
      assert CpuOk(tasks, queue, cpus, d);
    }
  }

  lemma PlacedStay(tasks: Tasks, cpus: Cpus, tick: nat, c: nat, old0: nat, t: nat)
    requires OnlyRunnableStay(tasks, cpus) && c < |cpus| && old0 < |tasks| && t < |tasks|
    requires Ready(tasks[t]) || t == cpus[c].idle
    ensures OnlyRunnableStay(Moved(tasks, old0, t, tick), Placed(cpus, c, t))
  {
  }

  // ----- Dispatch ------------------------------------------------------------------------------

  /** Every CPU has a task, and each was given its CPU in this tick. */
  ghost predicate AllBusy(tasks: Tasks, cpus: Cpus, tick: nat) {
    forall c {:trigger cpus[c]} | 0 <= c < |cpus| ::
      cpus[c].next.Some? && cpus[c].next.value < |tasks| && cpus[c].next.value != cpus[c].idle
        && tasks[cpus[c].next.value].timeStart == tick
  }

  ghost predicate Homeless(cpus: Cpus, t: nat) {
    forall c | 0 <= c < |cpus| :: cpus[c].current != t
  }

  /** t became next on some CPU, and nothing else happened. */
  ghost predicate Dispatched(tasks: Tasks, cpus: Cpus, tick: nat, tasks': Tasks, cpus': Cpus, c: nat, t: nat) {
    && c < |cpus| && cpus[c].next.Some? && cpus[c].next.value < |tasks| && t < |tasks|
    && tasks' == Moved(tasks, cpus[c].next.value, t, tick) && cpus' == Placed(cpus, c, t)
  }

  /** Which CPU t gets: one where it is current already; else one that idles; else the one whose task has been there
      longest, if that task did not come in this tick. The first such CPU each time. */
  ghost predicate Destination(tasks: Tasks, cpus: Cpus, tick: nat, c: nat, t: nat) {
    && c < |cpus|
    && if !Homeless(cpus, t) then cpus[c].current == t && forall d | 0 <= d < c :: cpus[d].current != t
       else if exists d :: 0 <= d < |cpus| && cpus[d].next == Some(cpus[d].idle) then
         cpus[c].next == Some(cpus[c].idle) && forall d | 0 <= d < c :: cpus[d].next != Some(cpus[d].idle)
       else LongestOn(tasks, cpus, tick, c)
  }

  ghost predicate LongestOn(tasks: Tasks, cpus: Cpus, tick: nat, c: nat) {
    && (forall d | 0 <= d < |cpus| :: cpus[d].next.Some? && cpus[d].next.value < |tasks|)
    && c < |cpus| && tasks[cpus[c].next.value].timeStart < tick
    && (forall d | 0 <= d < |cpus| ::
      tasks[cpus[c].next.value].timeStart <= tasks[cpus[d].next.value].timeStart)
    && (forall d | 0 <= d < c :: tasks[cpus[c].next.value].timeStart < tasks[cpus[d].next.value].timeStart)
  }

  /** Whoever was given a CPU since `cpus`, idle tasks apart, is started, not blocked, and stopped only in a system
      call. */
  ghost predicate Given(cpus: Cpus, tasks': Tasks, cpus': Cpus) {
    && |cpus'| == |cpus|
    && forall c {:trigger cpus'[c]} | 0 <= c < |cpus| && cpus'[c].next != cpus[c].next
         && cpus'[c].next != Some(cpus'[c].idle) ::
         && cpus'[c].next.Some? && cpus'[c].next.value < |tasks'|
         && var t := tasks'[cpus'[c].next.value]; t.started && !t.blocked && (!t.stopped || t.inSyscall)
  }

  lemma IdledGiven(tasks: Tasks, cpus: Cpus, tick: nat)
    ensures Given(cpus, IdledTasks(tasks, cpus, tick, |cpus|), IdledCpus(tasks, cpus, |cpus|))
  {
  }

  lemma DispatchedGiven(cpus0: Cpus, tasks: Tasks, cpus: Cpus, tick: nat, tasks': Tasks, cpus': Cpus, c: nat, t: nat)
    requires Given(cpus0, tasks, cpus) && Dispatched(tasks, cpus, tick, tasks', cpus', c, t)
    requires t < |tasks| && c < |cpus| && (Ready(tasks[t]) || t == cpus[c].idle)
    ensures Given(cpus0, tasks', cpus')
  {
  }

  datatype Step =
    | Yield(cpu: nat, fires: set<nat>)
    | Tick
    | Schedule(fires: set<nat>)
    | Switch(cpu: nat)
    | Block(cpu: nat, blocker: Blocker, atOnce: bool)
    | Stop(task: nat)
    | Syscall(task: nat, enter: bool)
    | Create
    | Start(task: nat)

  // ----- What a step does ----------------------------------------------------------------------

  datatype Snapshot = Snapshot(tasks: Tasks, queue: seq<nat>, cpus: Cpus, tick: nat)

  ghost predicate InvOf(s: Snapshot) {
    SchedInv(s.tasks, s.queue, s.cpus, s.tick)
  }

  /** What callers may ask for. */
  predicate AllowedIn(s: Snapshot, step: Step) {
    match step
    case Yield(c, _) => c < |s.cpus|
    case Switch(c) => c < |s.cpus|
    case Block(c, _, _) => c < |s.cpus|
    case Stop(t) => t < |s.tasks|
    case Syscall(t, _) => t < |s.tasks|
    case Start(t) => t < |s.tasks| && !s.tasks[t].started && forall c | 0 <= c < |s.cpus| :: s.cpus[c].idle != t
    case Tick => true
    case Schedule(_) => true
    case Create => true
  }

  /** After sched_updated_blocked: blocked tasks polled, CPUs whose task cannot run sent to idle. */
  ghost function Updated(s: Snapshot, fires: set<nat>): (r: Snapshot)
    ensures r.queue == s.queue && r.tick == s.tick
  {
    var polled := PolledAll(s.tasks, s.queue, fires, s.tick);
    s.(tasks := IdledTasks(polled, s.cpus, s.tick, |s.cpus|), cpus := IdledCpus(polled, s.cpus, |s.cpus|))
  }

  /** CPU c got the eligible task that waited longest, or its idle task if there is none. */
  ghost predicate Yielded(s: Snapshot, s': Snapshot, c: nat) {
    && s'.queue == s.queue && s'.tick == s.tick
    && exists t :: Dispatched(s.tasks, s.cpus, s.tick, s'.tasks, s'.cpus, c, t) && Chosen(s, s', c, t)
  }

  ghost predicate Chosen(s: Snapshot, s': Snapshot, c: nat, t: nat) {
    if NoneEligible(s.tasks, s.queue, s.cpus, s.tick, |s.queue|) then c < |s'.cpus| && t == s'.cpus[c].idle
    else Longest(s.tasks, s.queue, s.cpus, s.tick, |s.queue|, t)
  }

  /** One round of the dispatch loop: the eligible task that waited longest became next somewhere. */
  ghost predicate RoundOk(s: Snapshot, s': Snapshot) {
    && s'.queue == s.queue && s'.tick == s.tick
    && exists c, t :: Dispatched(s.tasks, s.cpus, s.tick, s'.tasks, s'.cpus, c, t)
         && Longest(s.tasks, s.queue, s.cpus, s.tick, |s.queue|, t) && Destination(s.tasks, s.cpus, s.tick, c, t)
  }

  ghost predicate Rounds(trail: seq<Snapshot>) {
    forall i | 0 <= i < |trail| - 1 :: RoundOk(trail[i], trail[i + 1])
  }

  /** Rounds of dispatch until nobody eligible is left or every CPU is busy. */
  ghost predicate Scheduled(s: Snapshot, s': Snapshot) {
    && (exists trail: seq<Snapshot> ::
      0 < |trail| <= |s.queue| + 1 && Rounds(trail) && trail[0] == s && trail[|trail| - 1] == s')
    && (NoneEligible(s'.tasks, s'.queue, s'.cpus, s'.tick, |s'.queue|) || AllBusy(s'.tasks, s'.cpus, s'.tick))
  }

  /** What a step does; one that names no CPU or no task, or starts a task twice, does nothing. */
  ghost predicate Stepped(s: Snapshot, step: Step, s': Snapshot) {
    match step
    case Yield(c, fires) => if c < |s.cpus| then Yielded(Updated(s, fires), s', c) else s' == s
    case Tick => s' == s.(tick := s.tick + 1)
    case Schedule(fires) => Scheduled(Updated(s, fires), s')
    case Switch(c) =>
      if c < |s.cpus| then
        s.cpus[c].next.Some? && s' == s.(cpus := s.cpus[c := s.cpus[c].(current := s.cpus[c].next.value)])
      else s' == s
    case Block(c, blocker, atOnce) =>
      if c >= |s.cpus| || (blocker.polled && atOnce) then s' == s
      else
        var t := s.cpus[c].current;
        t < |s.tasks| && s' == s.(tasks := s.tasks[t := s.tasks[t].(blocked := true, blocker := blocker)])
    case Stop(t) =>
      if t < |s.tasks| then s' == s.(tasks := s.tasks[t := s.tasks[t].(stopped := true)]) else s' == s
    case Syscall(t, enter) =>
      if t < |s.tasks| then s' == s.(tasks := s.tasks[t := s.tasks[t].(inSyscall := enter)]) else s' == s
    case Create =>
      s' == s.(tasks := s.tasks + [Task(false, false, false, false, 0, 0, Blocker(false, None, Success))])
    case Start(t) =>
      if t < |s.tasks| && !s.tasks[t].started && forall c | 0 <= c < |s.cpus| :: s.cpus[c].idle != t then
        s' == s.(tasks := s.tasks[t := s.tasks[t].(started := true)], queue := s.queue + [t])
      else s' == s
  }

  // ----- Start-up ------------------------------------------------------------------------------

  function NewTask(): Task {
    Task(false, false, false, false, 0, 0, Blocker(false, None, Success))
  }

  ghost predicate BegunCpu(tasks: Tasks, queue: seq<nat>, cpus: Cpus, c: nat) {
    && c < |cpus| && c < |queue| && 2 * c + 1 < |tasks|
    && cpus[c] == Cpu(2 * c, 2 * c + 1, Some(2 * c + 1))
    && !tasks[2 * c].started && tasks[2 * c + 1].started && !tasks[2 * c + 1].blocked && !tasks[2 * c + 1].stopped
    && queue[c] == 2 * c + 1
  }

  /** The first n CPUs have their idle and boot tasks. */
  ghost predicate Begun(tasks: Tasks, queue: seq<nat>, cpus: Cpus, tick: nat, n: nat) {
    && n <= |cpus|
    && (forall c: nat {:trigger BegunCpu(tasks, queue, cpus, c)} | c < n :: BegunCpu(tasks, queue, cpus, c))
    && (forall c | n <= c < |cpus| :: cpus[c].next == None)
    && (forall t | 0 <= t < |tasks| :: tasks[t].timeStart <= tick)
  }

  lemma BegunStep(tasks: Tasks, queue: seq<nat>, cpus: Cpus, tick: nat, n: nat)
    requires n < |cpus| && Begun(tasks, queue, cpus, tick, n) && |tasks| == 2 * n && |queue| == n
    ensures Begun(tasks + [NewTask(), NewTask().(started := true, timeStart := tick)], queue + [2 * n + 1],
                  cpus[n := Cpu(2 * n, 2 * n + 1, Some(2 * n + 1))], tick, n + 1)
  {
    var tasks', queue', cpus' := tasks + [NewTask(), NewTask().(started := true, timeStart := tick)],
      queue + [2 * n + 1], cpus[n := Cpu(2 * n, 2 * n + 1, Some(2 * n + 1))];
    forall c: nat | c < n + 1 ensures BegunCpu(tasks', queue', cpus', c) {
      assert c < n ==> BegunCpu(tasks, queue, cpus, c);
    }
  }

  lemma BegunIsValid(tasks: Tasks, queue: seq<nat>, cpus: Cpus, tick: nat)
    requires |cpus| > 0 && Begun(tasks, queue, cpus, tick, |cpus|) && |tasks| == 2 * |cpus| + 1
    requires |queue| == |cpus| + 1 && queue[|cpus|] == 2 * |cpus| && tasks[2 * |cpus|].started
    ensures SchedInv(tasks, queue, cpus, tick)
    ensures forall c {:trigger cpus[c]} | 0 <= c < |cpus| ::
      cpus[c].current < |tasks| && cpus[c].next == Some(cpus[c].current)
        && var t := tasks[cpus[c].current]; t.started && !t.blocked && !t.stopped
  {
    forall t | t in queue ensures t < |tasks| && tasks[t].started && (t == 2 * |cpus| || t % 2 == 1) {
      var k: nat :| k < |queue| && queue[k] == t;
      assert k < |cpus| ==> BegunCpu(tasks, queue, cpus, k);
    }
    forall c: nat | c < |cpus| ensures CpuOk(tasks, queue, cpus, c) && BegunCpu(tasks, queue, cpus, c) {
      assert BegunCpu(tasks, queue, cpus, c);
      assert queue[c] in queue;
    }
    forall c: nat | c < |cpus| ensures cpus[c].current < |tasks| && cpus[c].next == Some(cpus[c].current)
      && var t := tasks[cpus[c].current]; t.started && !t.blocked && !t.stopped {
      assert BegunCpu(tasks, queue, cpus, c);
    }
    forall c: nat, d: nat | c < d < |cpus| ensures cpus[c].next != cpus[d].next && cpus[c].idle != cpus[d].idle {
      assert BegunCpu(tasks, queue, cpus, c) && BegunCpu(tasks, queue, cpus, d);
    }
  }

  class Sched {
    var tasks: Tasks
    var queue: seq<nat>
    var cpus: Cpus
    var tick: nat

    ghost predicate Valid()
      reads this
    {
      SchedInv(tasks, queue, cpus, tick)
    }

    function Now(): Snapshot
      reads this
    {
      Snapshot(tasks, queue, cpus, tick)
    }

    /** Before tasking_initialize: n CPUs with nothing to run. */
    constructor (n: nat)
      ensures tasks == [] && queue == [] && tick == 0 && |cpus| == n
      ensures forall c | 0 <= c < n :: cpus[c].next == None
    {
      tasks, queue, tick := [], [], 0;
      cpus := seq(n, _ => Cpu(0, 0, None));
    }

    /** sched_detach. */
    method Detach(t: Option<nat>)
      requires t.Some? ==> t.value < |tasks|
      modifies this`tasks, this`cpus
      ensures t.None? ==> tasks == old(tasks) && cpus == old(cpus)
      ensures t.Some? ==>
        tasks == old(tasks)[t.value := old(tasks)[t.value].(timeEnd := tick)] && cpus == Detached(old(cpus), t.value)
    {
      if t.None? {
        return;
      }
      tasks := tasks[t.value := tasks[t.value].(timeEnd := tick)];
      ghost var was, done := cpus, Detached(cpus, t.value);
      var i := 0;
      while i < |cpus|
        invariant 0 <= i <= |cpus| == |was|
        invariant tasks == old(tasks)[t.value := old(tasks)[t.value].(timeEnd := tick)]
        invariant forall d | 0 <= d < |cpus| :: cpus[d] == if d < i then done[d] else was[d]
      {
        if cpus[i].next == Some(t.value) {
          cpus := cpus[i := cpus[i].(next := None)];
        }
        i := i + 1;
      }
    }

    /** sched_attach. */
    method Attach(t: nat, c: nat)
      requires t < |tasks| && c < |cpus|
      modifies this`tasks, this`cpus
      ensures tasks == old(tasks)[t := old(tasks)[t].(timeStart := tick)] && cpus == Placed(old(cpus), c, t)
    {
      tasks := tasks[t := tasks[t].(timeStart := tick)];
      cpus := cpus[c := cpus[c].(next := Some(t))];
    }

    /** sched_next. */
    method Next(t: nat, c: nat)
      requires t < |tasks| && c < |cpus|
      requires cpus[c].next.Some? ==> cpus[c].next.value < |tasks|
      modifies this`tasks, this`cpus
      ensures old(cpus)[c].next.None? ==>
        tasks == old(tasks)[t := old(tasks)[t].(timeStart := tick)] && cpus == Placed(old(cpus), c, t)
      ensures old(Valid()) ==> Dispatched(old(tasks), old(cpus), tick, tasks, cpus, c, t)
      ensures old(Valid() && MayRun(queue, cpus, c, t)) ==> Valid()
    {
      if Valid() {
        NextPlaces(tasks, queue, cpus, tick, c, t);
        if MayRun(queue, cpus, c, t) {
          NextKeeps(tasks, queue, cpus, tick, c, t);
        }
      }
      Detach(cpus[c].next);
      Attach(t, c);
    }

    /** tasking_initialize: an idle and a boot task for each CPU, then the finalizer. */
    method Initialize()
      requires tasks == [] && queue == [] && |cpus| > 0
      requires forall c | 0 <= c < |cpus| :: cpus[c].next == None
      modifies this
      ensures Valid() && |cpus| == old(|cpus|) && |tasks| == 2 * |cpus| + 1 && |queue| == |cpus| + 1
      ensures forall c {:trigger cpus[c]} | 0 <= c < |cpus| ::
        cpus[c].current < |tasks| && cpus[c].next == Some(cpus[c].current)
          && var t := tasks[cpus[c].current]; t.started && !t.blocked && !t.stopped
    {
      var i: nat := 0;
      while i < |cpus|
        invariant i <= |cpus| == old(|cpus|) && Begun(tasks, queue, cpus, tick, i) && |tasks| == 2 * i && |queue| == i
      {
        InitializeCpu(i);
        i := i + 1;
      }
      ghost var tasks0, queue0 := tasks, queue;
      var finalizer := CreateTask();
      StartTask(finalizer);
      forall c: nat | c < |cpus| ensures BegunCpu(tasks, queue, cpus, c) {
        assert BegunCpu(tasks0, queue0, cpus, c);
      }
      BegunIsValid(tasks, queue, cpus, tick);
    }

    /** One round of tasking_initialize. */
    method InitializeCpu(i: nat)
      requires i < |cpus| && Begun(tasks, queue, cpus, tick, i) && |tasks| == 2 * i && |queue| == i
      modifies this`tasks, this`queue, this`cpus
      ensures |cpus| == old(|cpus|) && Begun(tasks, queue, cpus, tick, i + 1) && |tasks| == 2 * i + 2
        && |queue| == i + 1
    {
      ghost var tasks0, queue0, cpus0 := tasks, queue, cpus;
      var idle := CreateTask();
      cpus := cpus[i := cpus[i].(idle := idle)];
      var boot := CreateTask();
      StartTask(boot);
      Next(boot, i);
      cpus := cpus[i := cpus[i].(current := boot)];
      assert tasks == tasks0 + [NewTask(), NewTask().(started := true, timeStart := tick)];
      assert queue == queue0 + [2 * i + 1];
      assert cpus == cpus0[i := Cpu(2 * i, 2 * i + 1, Some(2 * i + 1))];
      BegunStep(tasks0, queue0, cpus0, tick, i);
    }

    /** task_create, as the scheduler sees it. */
    method CreateTask() returns (t: nat)
      modifies this`tasks
      ensures t == |old(tasks)| && tasks == old(tasks) + [NewTask()]
      ensures old(Valid()) ==> Valid()
    {
      ghost var before := tasks;
      t := |tasks|;
      tasks := tasks + [NewTask()];
      if old(Valid()) {
        forall d: nat | d < |cpus| ensures CpuOk(tasks, queue, cpus, d) {
          assert CpuOk(before, queue, cpus, d);
        }
      }
    }

    /** sched_start. Starting twice is an assertion failure, and idle tasks are never handed out. */
    method StartTask(t: nat)
      requires t < |tasks| && !tasks[t].started
      modifies this`tasks, this`queue
      ensures tasks == old(tasks)[t := old(tasks)[t].(started := true)] && queue == old(queue) + [t]
      ensures old(Valid()) && (forall c | 0 <= c < |cpus| :: cpus[c].idle != t) ==> Valid()
    {
      ghost var tasks0, queue0 := tasks, queue;
      tasks := tasks[t := tasks[t].(started := true)];
      queue := queue + [t];
      if old(Valid()) && forall c | 0 <= c < |cpus| :: cpus[c].idle != t {
        forall d: nat | d < |cpus| ensures CpuOk(tasks, queue, cpus, d) {
          assert CpuOk(tasks0, queue0, cpus, d);
        }
      }
    }

    /** sched_cpu. */
    method CpuOf(t: nat) returns (r: Option<nat>)
      ensures r.Some? <==> Running(cpus, t)
      ensures r.Some? ==> r.value < |cpus| && cpus[r.value].next == Some(t) && forall c | 0 <= c < r.value ::
        cpus[c].next != Some(t)
    {
      var i := 0;
      while i < |cpus|
        invariant 0 <= i <= |cpus| && forall c | 0 <= c < i :: cpus[c].next != Some(t)
      {
        if cpus[i].next == Some(t) {
          return Some(i);
        }
        i := i + 1;
      }
      r := None;
    }

    /** sched_pick. */
    method Pick(best: Option<nat>, other: nat) returns (r: Option<nat>)
      requires other < |tasks| && (best.Some? ==> best.value < |tasks|)
      ensures r == if Eligible(tasks, cpus, tick, other)
        && (best.None? || tasks[other].timeEnd < tasks[best.value].timeEnd) then Some(other) else best
    {
      hide Running;
      var on := CpuOf(other);
      r := if tasks[other].timeStart != tick && Runnable(tasks[other]) && on.None?
        && (best.None? || tasks[other].timeEnd < tasks[best.value].timeEnd) then Some(other) else best;
    }

    /** sched_peek: an eligible task that waited longest, if there is one. */
    method Peek() returns (best: Option<nat>)
      requires Valid()
      ensures best.None? <==> NoneEligible(tasks, queue, cpus, tick, |queue|)
      ensures best.None? <==> forall t | t in queue && t < |tasks| :: !Candidate(tasks[t], tick) || Running(cpus, t)
      ensures best.Some? ==> best.value in queue && Longest(tasks, queue, cpus, tick, |queue|, best.value)
    {
      hide SchedInv, Eligible, Longest;
      QueueInRange(tasks, queue, cpus, tick);
      best := None;
      var i: nat := 0;
      while i < |queue|
        invariant i <= |queue|
        invariant best.None? ==> NoneEligible(tasks, queue, cpus, tick, i)
        invariant best.Some? ==> best.value in queue && Longest(tasks, queue, cpus, tick, i, best.value)
      {
        var other := queue[i];
        assert other in queue;
        ghost var was := best;
        best := Pick(best, other);
        if Eligible(tasks, cpus, tick, other) && (was.None? || tasks[other].timeEnd < tasks[was.value].timeEnd) {
          PickTakes(tasks, queue, cpus, tick, i, was);
        } else if was.Some? {
          PickKeeps(tasks, queue, cpus, tick, i, was.value);
        }
        i := i + 1;
      }
      if best.Some? { LongestIsEligible(tasks, queue, cpus, tick, i, best.value); }
      NoCandidate(tasks, queue, cpus, tick);
    }

    /** sched_updated_blocked: poll every blocked task, then send CPUs whose task cannot go on to idle. */
    method UpdateBlocked(fires: set<nat>)
      requires Valid()
      modifies this`tasks, this`cpus
      ensures Valid() && OnlyRunnableStay(tasks, cpus) && Given(old(cpus), tasks, cpus)
      ensures forall t | t in queue && t < |tasks| && old(tasks)[t].blocked ::
        Woken(old(tasks)[t], t in fires, tick, tasks[t])
      ensures var polled := PolledAll(old(tasks), queue, fires, tick);
              tasks == IdledTasks(polled, old(cpus), tick, |cpus|) && cpus == IdledCpus(polled, old(cpus), |old(cpus)|)
    {
      hide SchedInv, Runnable, Ready, IdledTasks, IdledCpus, OnlyRunnableStay, MayRun, Moved, Placed, CpuOk, Polled;
      PollAll(fires);
      ghost var tasks1, cpus1 := tasks, cpus;
      IdledNone(tasks1, cpus1, tick);
      var i: nat := 0;
      while i < |cpus|
        invariant i <= |cpus| == |cpus1| && Valid()
        invariant tasks == IdledTasks(tasks1, cpus1, tick, i) && cpus == IdledCpus(tasks1, cpus1, i)
      {
        NotYetIdled(tasks1, cpus1, i);
        CpuFacts(tasks, queue, cpus, tick, i);
        IdledReady(tasks1, cpus1, tick, i);
        RunnableIsReady(tasks[cpus[i].current]);
        if !Runnable(tasks[cpus[i].current]) {
          IdledOne(tasks1, queue, cpus1, tick, i);
          HomeIsFree(tasks, queue, cpus, tick, i);
          Next(cpus[i].idle, i);
        } else {
          IdledFree(tasks1, cpus1, tick, i);
        }
        i := i + 1;
      }
      IdledStay(tasks1, queue, cpus1, tick);
      IdledGiven(tasks1, cpus1, tick);
      IdledWoken(old(tasks), tasks1, queue, cpus1, fires, tick);
    }

    /** The first loop of sched_updated_blocked. */
    method PollAll(fires: set<nat>)
      requires Valid()
      modifies this`tasks
      ensures Valid() && tasks == PolledAll(old(tasks), queue, fires, tick)
      ensures forall t | t in queue && t < |tasks| && old(tasks)[t].blocked ::
        Woken(old(tasks)[t], t in fires, tick, tasks[t])
    {
      hide SchedInv, Runnable;
      PolledKeeps(tasks, queue, cpus, tick, fires);
      PolledNone(tasks, fires, tick);
      PolledWoken(tasks, queue, fires, tick);
      QueueInRange(tasks, queue, cpus, tick);
      hide PolledAll;
      assert queue[..0] == [];
      var i: nat := 0;
      while i < |queue|
        invariant i <= |queue| && tasks == PolledAll(old(tasks), queue[..i], fires, tick)
      {
        ghost var before := tasks;
        var t := queue[i];
        assert t in queue;
        PollStep(old(tasks), queue, fires, tick, i);
        if tasks[t].blocked {
          var fired := tasks[t].blocker.polled && t in fires;
          var late := tasks[t].blocker.deadline.Some? && tasks[t].blocker.deadline.value < tick;
          if fired {
            tasks := tasks[t := tasks[t].(blocked := false, blocker := tasks[t].blocker.(result := Success))];
          } else if late {
            tasks := tasks[t := tasks[t].(blocked := false, blocker := tasks[t].blocker.(result := Timeout))];
          } else if tasks[t].stopped {
            tasks := tasks[t := tasks[t].(blocked := false, blocker := tasks[t].blocker.(result := Interrupted))];
          }
        }
        assert tasks == before[t := Polled(before[t], t in fires, tick)];
        i := i + 1;
      }
      assert queue[..i] == queue;
    }

    /** sched_dispatch_to_current. */
    method DispatchToCurrent(t: nat) returns (ok: bool, ghost c: nat)
      requires Valid() && t in queue && t < |tasks| && !Running(cpus, t)
      modifies this`tasks, this`cpus
      ensures Valid() && |cpus| == old(|cpus|)
      ensures ok == !Homeless(old(cpus), t)
      ensures ok ==> Dispatched(old(tasks), old(cpus), tick, tasks, cpus, c, t)
      ensures ok ==> old(cpus)[c].current == t && forall d | 0 <= d < c :: old(cpus)[d].current != t
      ensures !ok ==> tasks == old(tasks) && cpus == old(cpus)
    {
      hide SchedInv;
      var i: nat := 0;
      while i < |cpus|
        invariant i <= |cpus| && forall d | 0 <= d < i :: cpus[d].current != t
      {
        if cpus[i].current == t {
          CpuFacts(tasks, queue, cpus, tick, i);
          Next(t, i);
          return true, i;
        }
        i := i + 1;
      }
      return false, 0;
    }

    /** sched_dispatch_to_idle. */
    method DispatchToIdle(t: nat) returns (ok: bool, ghost c: nat)
      requires Valid() && t in queue && t < |tasks| && !Running(cpus, t)
      modifies this`tasks, this`cpus
      ensures Valid() && |cpus| == old(|cpus|)
      ensures ok ==>
        && Dispatched(old(tasks), old(cpus), tick, tasks, cpus, c, t) && old(cpus)[c].next == Some(old(cpus)[c].idle)
        && forall d | 0 <= d < c :: old(cpus)[d].next != Some(old(cpus)[d].idle)
      ensures !ok ==> tasks == old(tasks) && cpus == old(cpus) && forall d | 0 <= d < |cpus| ::
        cpus[d].next != Some(cpus[d].idle)
    {
      hide SchedInv;
      var i: nat := 0;
      while i < |cpus|
        invariant i <= |cpus| && forall d | 0 <= d < i :: cpus[d].next != Some(cpus[d].idle)
      {
        if cpus[i].next == Some(cpus[i].idle) {
          CpuFacts(tasks, queue, cpus, tick, i);
          Next(t, i);
          return true, i;
        }
        i := i + 1;
      }
      return false, 0;
    }

    /** sched_dispatch_to_active: evicts the task that has run longest, unless all came in this tick. */
    method DispatchToActive(t: nat) returns (ok: bool, ghost c: nat)
      requires Valid() && t in queue && t < |tasks| && !Running(cpus, t)
      modifies this`tasks, this`cpus
      ensures Valid() && |cpus| == old(|cpus|)
      ensures forall d | 0 <= d < |old(cpus)| :: old(cpus)[d].next.Some? && old(cpus)[d].next.value < |tasks|
      ensures ok ==>
        Dispatched(old(tasks), old(cpus), tick, tasks, cpus, c, t) && LongestOn(old(tasks), old(cpus), tick, c)
      ensures !ok ==> tasks == old(tasks) && cpus == old(cpus) && forall d | 0 <= d < |cpus| ::
        tasks[cpus[d].next.value].timeStart == tick
    {
      assert |cpus| > 0 && forall d: nat | d < |cpus| ::
        cpus[d].next.Some? && cpus[d].next.value < |tasks| && tasks[cpus[d].next.value].timeStart <= tick by {
        forall d: nat | d < |cpus| ensures cpus[d].next.Some? && cpus[d].next.value < |tasks| {
          assert CpuOk(tasks, queue, cpus, d);
        }
      }
      hide SchedInv;
      var best: nat := 0;
      var i: nat := 0;
      while i < |cpus|
        invariant i <= |cpus| && best < |cpus|
        invariant forall d | 0 <= d < i :: tasks[cpus[best].next.value].timeStart <= tasks[cpus[d].next.value].timeStart
        invariant forall d | 0 <= d < best ::
          tasks[cpus[best].next.value].timeStart < tasks[cpus[d].next.value].timeStart
      {
        if tick - tasks[cpus[best].next.value].timeStart < tick - tasks[cpus[i].next.value].timeStart {
          best := i;
        }
        i := i + 1;
      }
      if tick - tasks[cpus[best].next.value].timeStart == 0 {
        return false, 0;
      }
      Next(t, best);
      return true, best;
    }

    /** sched_dispatch. */
    method Dispatch(task: Option<nat>) returns (ok: bool, ghost c: nat)
      requires Valid() && (task.Some? ==> task.value in queue && task.value < |tasks| && !Running(cpus, task.value))
      modifies this`tasks, this`cpus
      ensures Valid() && |cpus| == old(|cpus|)
      ensures ok ==>
        && task.Some? && Dispatched(old(tasks), old(cpus), tick, tasks, cpus, c, task.value)
        && Destination(old(tasks), old(cpus), tick, c, task.value)
      ensures !ok ==> tasks == old(tasks) && cpus == old(cpus)
      ensures !ok && task.Some? ==> Homeless(cpus, task.value) && AllBusy(tasks, cpus, tick)
    {
      if task.None? {
        return false, 0;
      }
      ok, c := DispatchToCurrent(task.value);
      if !ok {
        ok, c := DispatchToIdle(task.value);
        if !ok {
          ok, c := DispatchToActive(task.value);
        }
      }
    }

    /** sched_yield. */
    method YieldCpu(self: nat, fires: set<nat>)
      requires Valid() && self < |cpus|
      modifies this`tasks, this`cpus
      ensures Valid() && |cpus| == old(|cpus|) && |tasks| == old(|tasks|) && OnlyRunnableStay(tasks, cpus)
      ensures Yielded(Updated(old(Now()), fires), Now(), self)
      ensures Given(old(cpus), tasks, cpus)
    {
      hide SchedInv, Runnable, Ready, IdledTasks, IdledCpus, OnlyRunnableStay, PolledAll, NoneEligible;
      UpdateBlocked(fires);
      ghost var T, P := tasks, cpus;
      var best := Peek();
      var t := if best.Some? then best.value else cpus[self].idle;
      CpuFacts(tasks, queue, cpus, tick, self);
      HomeIsFree(tasks, queue, cpus, tick, self);
      PlacedStay(T, P, tick, self, P[self].next.value, t);
      Next(t, self);
      assert Dispatched(T, P, tick, tasks, cpus, self, t);
      DispatchedGiven(old(cpus), T, P, tick, tasks, cpus, self, t);
      assert Updated(old(Now()), fires) == Snapshot(T, queue, P, tick);
    }

    /** The increment of the clock, done outside the lock. */
    method TickOver()
      requires Valid()
      modifies this`tick
      ensures Valid() && tick == old(tick) + 1
    {
      tick := tick + 1;
    }

    /** sched_schedule under the lock: afterwards a CPU idles only if nobody eligible is left. */
    method ScheduleAll(fires: set<nat>) returns (rounds: nat, ghost trail: seq<Snapshot>)
      requires Valid()
      modifies this`tasks, this`cpus
      ensures Valid() && |cpus| == old(|cpus|) && |tasks| == old(|tasks|) && OnlyRunnableStay(tasks, cpus)
      ensures rounds <= |queue| && |trail| == rounds + 1
      ensures trail[0] == Updated(old(Now()), fires) && trail[rounds] == Now() && Rounds(trail)
      ensures NoneEligible(tasks, queue, cpus, tick, |queue|) || AllBusy(tasks, cpus, tick)
      ensures Given(old(cpus), tasks, cpus)
    {
      hide SchedInv, Runnable, Ready, IdledTasks, IdledCpus, OnlyRunnableStay, PolledAll, NoneEligible, Waiting, Moved,
        Placed,
        AllBusy, Running;
      UpdateBlocked(fires);
      WaitingBounded(tasks, queue, tick);
      rounds, trail := 0, [Now()];
      while true
        invariant |trail| == rounds + 1 && trail[0] == Updated(old(Now()), fires) && trail[rounds] == Now()
          && Rounds(trail)
        invariant Valid() && |cpus| == old(|cpus|) && |tasks| == old(|tasks|) && OnlyRunnableStay(tasks, cpus)
        invariant Given(old(cpus), tasks, cpus)
        invariant rounds + |Waiting(tasks, queue, tick)| <= |queue|
        decreases |Waiting(tasks, queue, tick)|
      {
        ghost var T, P := tasks, cpus;
        var best := Peek();
        if best.Some? { LongestIsEligible(tasks, queue, cpus, tick, |queue|, best.value); }
        var ok, c := Dispatch(best);
        if !ok {
          return;
        }
        DispatchShrinks(T, queue, tick, P[c].next.value, best.value);
        PlacedStay(T, P, tick, c, P[c].next.value, best.value);
        DispatchedGiven(old(cpus), T, P, tick, tasks, cpus, c, best.value);
        assert RoundOk(Snapshot(T, queue, P, tick), Now());
        trail := trail + [Now()];
        rounds := rounds + 1;
      }
    }

    /** sched_switch. */
    method SwitchCpu(self: nat)
      requires Valid() && self < |cpus|
      modifies this`cpus
      ensures Valid() && |cpus| == old(|cpus|) && cpus[self].next.Some?
        && cpus == old(cpus)[self := old(cpus)[self].(current := cpus[self].next.value)]
    {
      ghost var cpus0 := cpus;
      assert CpuOk(tasks, queue, cpus, self);
      cpus := cpus[self := cpus[self].(current := cpus[self].next.value)];
      forall d: nat | d < |cpus| ensures CpuOk(tasks, queue, cpus, d) {
        assert CpuOk(tasks, queue, cpus0, d);
      }
    }

    /** The locked part of sched_block, with whether the blocker function was true at once. */
    method BlockCurrent(self: nat, blocker: Blocker, fires: bool) returns (blocked: bool)
      requires Valid() && self < |cpus|
      modifies this`tasks
      ensures Valid() && |tasks| == old(|tasks|)
      ensures blocked == !(blocker.polled && fires)
      ensures !blocked ==> tasks == old(tasks)
      ensures blocked ==>
        cpus[self].current < |tasks|
        && tasks == old(tasks)[cpus[self].current := old(tasks)[cpus[self].current].(blocked := true,
        blocker := blocker)]
    {
      if blocker.polled && fires {
        return false;
      }
      assert CpuOk(tasks, queue, cpus, self);
      var t := cpus[self].current;
      SetTask(t, tasks[t].(blocker := blocker, blocked := true));
      return true;
    }

    /** The locked part of sched_stop. */
    method StopTask(t: nat)
      requires Valid() && t < |tasks|
      modifies this`tasks
      ensures Valid() && tasks == old(tasks)[t := old(tasks)[t].(stopped := true)]
    {
      if !tasks[t].stopped {
        SetTask(t, tasks[t].(stopped := true));
      }
    }

    method SetTask(t: nat, task: Task)
      requires Valid() && t < |tasks| && task.started == tasks[t].started && task.timeStart == tasks[t].timeStart
      modifies this`tasks
      ensures Valid() && tasks == old(tasks)[t := task]
    {
      ghost var before := tasks;
      tasks := tasks[t := task];
      forall d: nat | d < |cpus| ensures CpuOk(tasks, queue, cpus, d) {
        assert CpuOk(before, queue, cpus, d);
      }
    }

    predicate Allowed(step: Step)
      reads this
    {
      AllowedIn(Now(), step)
    }

    /** One step; one that its caller may not take is skipped. */
    method Perform(step: Step)
      requires Valid()
      modifies this
      ensures Valid() && |cpus| == old(|cpus|)
      ensures Stepped(old(Now()), step, Now())
    {
      hide SchedInv, OnlyRunnableStay, Runnable, Updated, NoneEligible, AllBusy, Yielded, Rounds;
      if Allowed(step) {
        match step
        case Yield(c, fires) => YieldCpu(c, fires);
        case Switch(c) => SwitchCpu(c);
        case Block(c, blocker, atOnce) => var _ := BlockCurrent(c, blocker, atOnce);
        case Stop(t) => StopTask(t);
        case Syscall(t, enter) => SetTask(t, tasks[t].(inSyscall := enter));
        case Start(t) => StartTask(t);
        case Tick => TickOver();
        case Schedule(fires) =>
          ghost var start := Updated(Now(), fires);
          var n, trail := ScheduleAll(fires);
          assert 0 < |trail| <= |start.queue| + 1 && Rounds(trail) && trail[0] == start && trail[|trail| - 1] == Now();
        case Create => var _ := CreateTask();
      }
    }

    /** Any interleaving of the scheduler's steps: the invariant holds after each of them, and the log says what each
        did. */
    method Run(steps: seq<Step>) returns (ghost log: seq<Snapshot>)
      requires Valid()
      modifies this
      ensures Valid() && |log| == |steps| + 1 && log[0] == old(Now()) && log[|steps|] == Now()
      ensures forall i | 0 <= i <= |steps| :: InvOf(log[i]) && |log[i].cpus| == |log[0].cpus|
      ensures forall i | 0 <= i < |steps| ::
        Stepped(log[i], steps[i], log[i + 1])
    {
      hide SchedInv, Stepped;
      log := [Now()];
      for i := 0 to |steps|
        invariant Valid() && |log| == i + 1 && log[0] == old(Now()) && log[i] == Now()
        invariant forall j | 0 <= j <= i :: InvOf(log[j]) && |log[j].cpus| == |log[0].cpus|
        invariant forall j | 0 <= j < i ::
          Stepped(log[j], steps[j], log[j + 1])
      {
        Perform(steps[i]);
        log := log + [Now()];
      }
    }
  }
}
