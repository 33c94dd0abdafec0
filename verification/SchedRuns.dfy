/** Whole runs of the scheduler: what becomes of a stopped task and of a blocked one. */
module SchedRuns {
  import opened Basics
  import opened SchedState
  import opened Scheduler

  /** The states of a run, one step after the other. */
  ghost predicate IsRun(log: seq<Snapshot>, steps: seq<Step>) {
    && |log| == |steps| + 1
    && forall i | 0 <= i < |steps| :: InvOf(log[i]) && Stepped(log[i], steps[i], log[i + 1])
  }

  // ----- Stopped tasks -------------------------------------------------------------------------

  /** t was stopped and is not inside a system call; idle tasks are never stopped. */
  ghost predicate Halted(s: Snapshot, t: nat) {
    && t < |s.tasks| && s.tasks[t].stopped && !s.tasks[t].inSyscall
    && forall c | 0 <= c < |s.cpus| :: s.cpus[c].idle != t
  }

  /** No CPU took t in. */
  ghost predicate NotTaken(s: Snapshot, s': Snapshot, t: nat) {
    && |s'.cpus| == |s.cpus|
    && forall c | 0 <= c < |s.cpus| && s'.cpus[c].next == Some(t) :: s.cpus[c].next == Some(t)
  }

  /** Every CPU that was running t has something else next. */
  ghost predicate GivenUp(s: Snapshot, s': Snapshot, t: nat) {
    && |s'.cpus| == |s.cpus|
    && forall c | 0 <= c < |s.cpus| && s.cpus[c].current == t :: s'.cpus[c].next != Some(t)
  }

  lemma UpdatedHalts(s: Snapshot, fires: set<nat>, t: nat)
    requires InvOf(s) && Halted(s, t)
    ensures var s' := Updated(s, fires); Halted(s', t) && NotTaken(s, s', t) && GivenUp(s, s', t)
  {
    var polled := PolledAll(s.tasks, s.queue, fires, s.tick);
    forall c: nat | c < |s.cpus| && s.cpus[c].current == t ensures Stuck(polled, s.cpus, c) {
    }
  }

  /** A dispatch never chooses a halted task. */
  lemma DispatchHalts(s: Snapshot, s': Snapshot, c: nat, u: nat, t: nat)
    requires Halted(s, t) && u != t && Dispatched(s.tasks, s.cpus, s.tick, s'.tasks, s'.cpus, c, u)
    ensures Halted(s', t) && NotTaken(s, s', t)
    ensures forall d | 0 <= d < |s.cpus| && s.cpus[d].next != Some(t) :: s'.cpus[d].next != Some(t)
    ensures forall d | 0 <= d < |s.cpus| :: s'.cpus[d].current == s.cpus[d].current
  {
  }

  lemma RoundHalts(s: Snapshot, s': Snapshot, t: nat)
    requires Halted(s, t) && RoundOk(s, s')
    ensures Halted(s', t) && NotTaken(s, s', t)
  {
    var c, u :| Dispatched(s.tasks, s.cpus, s.tick, s'.tasks, s'.cpus, c, u)
         && Longest(s.tasks, s.queue, s.cpus, s.tick, |s.queue|, u);
    LongestIsEligible(s.tasks, s.queue, s.cpus, s.tick, |s.queue|, u);
    DispatchHalts(s, s', c, u, t);
  }

  lemma {:induction false} RoundsHalt(trail: seq<Snapshot>, n: nat, t: nat)
    requires n < |trail| && Rounds(trail) && Halted(trail[0], t)
    ensures Halted(trail[n], t) && NotTaken(trail[0], trail[n], t)
  {
    if n > 0 {
      RoundsHalt(trail, n - 1, t);
      assert RoundOk(trail[n - 1], trail[n - 1 + 1]);
      RoundHalts(trail[n - 1], trail[n], t);
    }
  }

  lemma YieldHalts(s: Snapshot, s': Snapshot, c: nat, t: nat)
    requires Halted(s, t) && Yielded(s, s', c)
    ensures Halted(s', t) && NotTaken(s, s', t)
  {
    var u :| Dispatched(s.tasks, s.cpus, s.tick, s'.tasks, s'.cpus, c, u) && Chosen(s, s', c, u);
    if !NoneEligible(s.tasks, s.queue, s.cpus, s.tick, |s.queue|) {
      LongestIsEligible(s.tasks, s.queue, s.cpus, s.tick, |s.queue|, u);
    }
    DispatchHalts(s, s', c, u, t);
  }

  lemma Chain(s: Snapshot, m: Snapshot, s': Snapshot, t: nat)
    requires NotTaken(s, m, t) && NotTaken(m, s', t)
    ensures NotTaken(s, s', t)
    ensures GivenUp(s, m, t) ==> GivenUp(s, s', t)
  {
  }

  /** A halted task stays halted until it enters a system call, and gets no CPU meanwhile. */
  lemma StepHalts(s: Snapshot, step: Step, s': Snapshot, t: nat)
    requires InvOf(s) && Halted(s, t) && Stepped(s, step, s') && step != Syscall(t, true)
    ensures Halted(s', t) && NotTaken(s, s', t)
    ensures step.Schedule? || (step.Yield? && step.cpu < |s.cpus|) ==> GivenUp(s, s', t)
  {
    match step
    case Yield(c, fires) =>
      hide Updated, Yielded, SchedInv;
      if c < |s.cpus| {
        UpdatedHalts(s, fires, t);
        YieldHalts(Updated(s, fires), s', c, t);
        Chain(s, Updated(s, fires), s', t);
      }
    case Schedule(fires) =>
      hide Updated, SchedInv, Rounds;
      UpdatedHalts(s, fires, t);
      var trail: seq<Snapshot> :| 0 < |trail| && Rounds(trail) && trail[0] == Updated(s, fires)
        && trail[|trail| - 1] == s';
      RoundsHalt(trail, |trail| - 1, t);
      Chain(s, Updated(s, fires), s', t);
    case Tick =>
    case Switch(c) =>
    case Block(c, blocker, atOnce) =>
    case Stop(u) =>
    case Syscall(u, enter) =>
    case Create =>
    case Start(u) =>
  }

  lemma OneStep(log: seq<Snapshot>, steps: seq<Step>, i: nat)
    requires IsRun(log, steps) && i < |steps|
    ensures InvOf(log[i]) && Stepped(log[i], steps[i], log[i + 1])
  {
    hide InvOf, Stepped;
  }

  ghost predicate Polls(step: Step, cpus: nat) {
    step.Schedule? || (step.Yield? && step.cpu < cpus)
  }

  lemma {:induction false} HaltedRun(log: seq<Snapshot>, steps: seq<Step>, i: nat, j: nat, t: nat)
    requires IsRun(log, steps) && i <= j <= |steps| && Halted(log[i], t)
    requires forall k | i <= k < j :: steps[k] != Syscall(t, true)
    ensures Halted(log[j], t) && NotTaken(log[i], log[j], t)
    ensures i < j && Polls(steps[j - 1], |log[j - 1].cpus|) ==> GivenUp(log[j - 1], log[j], t)
    decreases j - i
  {
    hide IsRun, InvOf, Stepped, Halted, NotTaken, GivenUp;
    Lengths(log, steps);
    if i < j {
      HaltedRun(log, steps, i, j - 1, t);
      OneStep(log, steps, j - 1);
      StepHalts(log[j - 1], steps[j - 1], log[j], t);
      Chain(log[i], log[j - 1], log[j], t);
    } else {
      NothingTaken(log[i], t);
    }
  }

  lemma Lengths(log: seq<Snapshot>, steps: seq<Step>)
    requires IsRun(log, steps)
    ensures |log| == |steps| + 1
  {
  }

  lemma NothingTaken(s: Snapshot, t: nat)
    ensures NotTaken(s, s, t)
  {
  }

  /** A task stopped outside of system calls, and not entering one again, is never made next again by any CPU; and after
      every yield or scheduling round no CPU it was running on goes on with it. */
  lemma StoppedNeverNext(log: seq<Snapshot>, steps: seq<Step>, i: nat, j: nat, t: nat)
    requires IsRun(log, steps) && i <= j <= |steps|
    requires t < |log[i].tasks| && log[i].tasks[t].stopped && !log[i].tasks[t].inSyscall
    requires forall c | 0 <= c < |log[i].cpus| :: log[i].cpus[c].idle != t
    requires forall k | i <= k < j :: steps[k] != Syscall(t, true)
    ensures |log[j].cpus| == |log[i].cpus|
    ensures forall c | 0 <= c < |log[j].cpus| && log[j].cpus[c].next == Some(t) :: log[i].cpus[c].next == Some(t)
    ensures i < j && Polls(steps[j - 1], |log[j - 1].cpus|) ==>
      && |log[j - 1].cpus| == |log[j].cpus|
      && forall c | 0 <= c < |log[j].cpus| && log[j - 1].cpus[c].current == t :: log[j].cpus[c].next != Some(t)
  {
    HaltedRun(log, steps, i, j, t);
    hide InvOf, Stepped;
  }

  // ----- Blocked tasks -------------------------------------------------------------------------

  ghost predicate SameBut(a: Tasks, b: Tasks, t: nat) {
    && t < |a| == |b|
    && b[t].(timeStart := a[t].timeStart, timeEnd := a[t].timeEnd) == a[t]
  }

  lemma {:induction false} RoundsKeep(trail: seq<Snapshot>, n: nat, t: nat)
    requires n < |trail| && Rounds(trail) && t < |trail[0].tasks|
    ensures SameBut(trail[0].tasks, trail[n].tasks, t)
  {
    if n > 0 {
      RoundsKeep(trail, n - 1, t);
      assert RoundOk(trail[n - 1], trail[n - 1 + 1]);
    }
  }

  /** The next poll, by any CPU, ends the wait of a queued task exactly if its function was true, its deadline has
      passed
      or it was stopped, and says which. */
  lemma PollEndsWait(s: Snapshot, step: Step, s': Snapshot, t: nat, fires: set<nat>)
    requires InvOf(s) && Stepped(s, step, s') && t in s.queue && t < |s.tasks| && s.tasks[t].blocked
    requires step == Schedule(fires) || (step.Yield? && step == Yield(step.cpu, fires) && step.cpu < |s.cpus|)
    ensures t < |s'.tasks| && Woken(s.tasks[t], t in fires, s.tick, s'.tasks[t])
  {
    var m := Updated(s, fires);
    var polled := PolledAll(s.tasks, s.queue, fires, s.tick);
    PolledWoken(s.tasks, s.queue, fires, s.tick);
    IdledWoken(s.tasks, polled, s.queue, s.cpus, fires, s.tick);
    assert Woken(s.tasks[t], t in fires, s.tick, m.tasks[t]);
    hide Woken, PolledAll, IdledTasks, Rounds;
    assert SameBut(m.tasks, s'.tasks, t) by {
      if step.Schedule? {
        var trail: seq<Snapshot> :| 0 < |trail| && Rounds(trail) && trail[0] == m && trail[|trail| - 1] == s';
        RoundsKeep(trail, |trail| - 1, t);
      }
    }
    WokenSame(s.tasks[t], t in fires, s.tick, m.tasks[t], s'.tasks[t]);
  }

  lemma WokenSame(t: Task, fires: bool, tick: nat, a: Task, b: Task)
    requires Woken(t, fires, tick, a) && b.(timeStart := a.timeStart, timeEnd := a.timeEnd) == a
    ensures Woken(t, fires, tick, b)
  {
  }
}
