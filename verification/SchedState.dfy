/** Scheduler state (kernel/sched.c, task.h, cpu.h): tasks, the run queue, and what each CPU runs now and next. */
module SchedState {
  import opened Basics

  datatype BlockResult = Success | Timeout | Interrupted

  /** `deadline` None is the infinite deadline; `polled` tells that a blocker function is set. */
  datatype Blocker = Blocker(polled: bool, deadline: Option<nat>, result: BlockResult)

  datatype Task = Task(started: bool, stopped: bool, blocked: bool, inSyscall: bool, timeStart: nat, timeEnd: nat,
    blocker: Blocker)

  datatype Cpu = Cpu(idle: nat, current: nat, next: Option<nat>)

  /** task_runnable. */
  predicate Runnable(t: Task) {
    t.started && !(t.blocked || (t.stopped && !t.inSyscall))
  }

  type Tasks = seq<Task>
  type Cpus = seq<Cpu>

  ghost predicate CpuOk(tasks: Tasks, queue: seq<nat>, cpus: Cpus, c: nat) {
    && c < |cpus|
    && cpus[c].idle < |tasks| && cpus[c].current < |tasks|
    && !tasks[cpus[c].idle].started && cpus[c].idle !in queue
    && cpus[c].next.Some?
    && (cpus[c].next.value == cpus[c].idle || cpus[c].next.value in queue)
  }

  /** No CPU is without a next task, no task is next on two CPUs, idle tasks are next on their own CPU only. */
  ghost predicate SchedInv(tasks: Tasks, queue: seq<nat>, cpus: Cpus, tick: nat) {
    && |cpus| > 0
    && (forall c: nat {:trigger CpuOk(tasks, queue, cpus, c)} | c < |cpus| :: CpuOk(tasks, queue, cpus, c))
    && (forall c, d | 0 <= c < d < |cpus| :: cpus[c].next != cpus[d].next && cpus[c].idle != cpus[d].idle)
    && (forall t | t in queue :: t < |tasks| && tasks[t].started)
    && (forall t | 0 <= t < |tasks| :: tasks[t].timeStart <= tick)
  }

  /** sched_running. */
  ghost predicate Running(cpus: Cpus, t: nat) {
    exists c | 0 <= c < |cpus| :: cpus[c].next == Some(t)
  }

  lemma CpuFacts(tasks: Tasks, queue: seq<nat>, cpus: Cpus, tick: nat, c: nat)
    requires SchedInv(tasks, queue, cpus, tick) && c < |cpus|
    ensures CpuOk(tasks, queue, cpus, c) && cpus[c].next.Some? && cpus[c].next.value < |tasks|
      && cpus[c].current < |tasks| && cpus[c].idle < |tasks|
  {
    assert CpuOk(tasks, queue, cpus, c);
  }

  lemma QueueInRange(tasks: Tasks, queue: seq<nat>, cpus: Cpus, tick: nat)
    requires SchedInv(tasks, queue, cpus, tick)
    ensures forall t | t in queue :: t < |tasks|
  {
  }

  lemma IdleOnlyAtHome(tasks: Tasks, queue: seq<nat>, cpus: Cpus, tick: nat, c: nat, d: nat)
    requires SchedInv(tasks, queue, cpus, tick) && c < |cpus| && d < |cpus| && cpus[c].next == Some(cpus[d].idle)
    ensures c == d
  {
    assert CpuOk(tasks, queue, cpus, c) && CpuOk(tasks, queue, cpus, d);
  }

  // ----- Detach, attach, next ------------------------------------------------------------------

  function Detached(cpus: Cpus, t: nat): (r: Cpus)
    ensures |r| == |cpus|
  {
    seq(|cpus|, c requires 0 <= c < |cpus| => if cpus[c].next == Some(t) then cpus[c].(next := None) else cpus[c])
  }

  /** The tasks after `old` stopped being next and t became next. */
  function Moved(tasks: Tasks, old0: nat, t: nat, tick: nat): (r: Tasks)
    requires old0 < |tasks| && t < |tasks|
    ensures |r| == |tasks|
  {
    var a := tasks[old0 := tasks[old0].(timeEnd := tick)];
    a[t := a[t].(timeStart := tick)]
  }

  ghost function Placed(cpus: Cpus, c: nat, t: nat): Cpus
    requires c < |cpus|
  {
    cpus[c := cpus[c].(next := Some(t))]
  }

  /** Where t may become next: nowhere else yet, and queued or at home. */
  ghost predicate MayRun(queue: seq<nat>, cpus: Cpus, c: nat, t: nat) {
    && c < |cpus|
    && (forall d | 0 <= d < |cpus| && d != c :: cpus[d].next != Some(t))
    && (t in queue || t == cpus[c].idle)
  }

  lemma NextPlaces(tasks: Tasks, queue: seq<nat>, cpus: Cpus, tick: nat, c: nat, t: nat)
    requires SchedInv(tasks, queue, cpus, tick) && c < |cpus|
    ensures cpus[c].next.Some?
      && Detached(cpus, cpus[c].next.value)[c := Detached(cpus, cpus[c].next.value)[c].(next := Some(t))]
      == Placed(cpus, c, t)
  {
    assert CpuOk(tasks, queue, cpus, c);
    var D := Detached(cpus, cpus[c].next.value);
    forall d | 0 <= d < |cpus| && d != c ensures D[d] == cpus[d] {
      assert cpus[d].next != cpus[c].next;
    }
  }

  lemma NextKeeps(tasks: Tasks, queue: seq<nat>, cpus: Cpus, tick: nat, c: nat, t: nat)
    requires SchedInv(tasks, queue, cpus, tick) && MayRun(queue, cpus, c, t)
    ensures t < |tasks| && cpus[c].next.Some? && cpus[c].next.value < |tasks|
    ensures SchedInv(Moved(tasks, cpus[c].next.value, t, tick), queue, Placed(cpus, c, t), tick)
  {
    assert CpuOk(tasks, queue, cpus, c);
    var tasks' := Moved(tasks, cpus[c].next.value, t, tick);
    var cpus' := Placed(cpus, c, t);
    forall d: nat | d < |cpus'| ensures CpuOk(tasks', queue, cpus', d) {
      assert CpuOk(tasks, queue, cpus, d);
    }
  }
}
