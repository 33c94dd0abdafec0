/** The reader/writer lock (libs/brutal-sync/rwlock.c, lock.c) stepped one memory access at a time, for any number of
    threads. */
module RwLock {
  import opened Basics

  /** Where a thread is. `spin` tells the acquire functions, which retry, from the try functions; `late` is history: a
      writer was pending when this read attempt took the inner lock. */
  datatype Pc =
    | Idle
    // rwlock_acquire_read and rwlock_try_acquire_read
    | ReadEnter(spin: bool)
    | ReadPendings(spin: bool, late: bool)
    | ReadWriters(spin: bool, late: bool)
    | ReadLoad(spin: bool, late: bool)
    | ReadStore(spin: bool, late: bool, value: int)
    | ReadLeave(spin: bool, late: bool, ok: bool)
    | Reading
    // rwlock_release_read
    | UnreadEnter
    | UnreadLoad
    | UnreadStore(value: int)
    | UnreadLeave
    // rwlock_acquire_write and rwlock_try_acquire_write
    | WriteAnnounce
    | WriteEnter(spin: bool)
    | WriteReaders(spin: bool)
    | WriteWriters(spin: bool)
    | WriteLoad(spin: bool)
    | WriteStore(spin: bool, value: int)
    | WriteLeave(spin: bool, ok: bool)
    | WriteRetract
    | Writing
    // rwlock_release_write
    | UnwriteEnter
    | UnwriteLoad
    | UnwriteStore(value: int)
    | UnwriteLeave

  /** The fields of the lock; `failed` records that a release assertion fired. */
  datatype Shared = Shared(locked: bool, pendings: int, readers: int, writers: int, failed: bool)

  datatype State = State(sh: Shared, pcs: seq<Pc>)

  datatype Call = AcquireRead | TryAcquireRead | AcquireWrite | TryAcquireWrite

  predicate Init(s: State) {
    s.sh == Shared(false, 0, 0, 0, false) && forall i | 0 <= i < |s.pcs| :: s.pcs[i] == Idle
  }

  /** One step of a thread; `call` is what it asks for when it is idle. */
  function Move(s: Shared, pc: Pc, call: Call): (Shared, Pc) {
    match pc
    case Idle => (s, match call
                            case AcquireRead => ReadEnter(true)
                            case TryAcquireRead => ReadEnter(false)
                            case AcquireWrite => WriteAnnounce
                            case TryAcquireWrite => WriteEnter(false))
    case ReadEnter(spin) => if s.locked then (s, pc) else (s.(locked := true), ReadPendings(spin, s.pendings > 0))
    case ReadPendings(spin, late) => (s, if s.pendings != 0 then ReadLeave(spin, late, false)
      else ReadWriters(spin, late))
    case ReadWriters(spin, late) => (s, if s.writers != 0 then ReadLeave(spin, late, false) else ReadLoad(spin, late))
    case ReadLoad(spin, late) => (s, ReadStore(spin, late, s.readers))
    case ReadStore(spin, late, v) => (s.(readers := v + 1), ReadLeave(spin, late, true))
    case ReadLeave(spin, late, ok) => (s.(locked := false), if ok then Reading else if spin then ReadEnter(spin)
      else Idle)
    case Reading => (s, UnreadEnter)
    case UnreadEnter => if s.locked then (s, pc) else (s.(locked := true), UnreadLoad)
    case UnreadLoad => (s, UnreadStore(s.readers))
    case UnreadStore(v) => (s.(readers := v - 1, failed := s.failed || v <= 0), UnreadLeave)
    case UnreadLeave => (s.(locked := false), Idle)
    case _ => MoveWriter(s, pc)
  }

  function MoveWriter(s: Shared, pc: Pc): (Shared, Pc) {
    match pc
    case WriteAnnounce => (s.(pendings := s.pendings + 1), WriteEnter(true))
    case WriteEnter(spin) => if s.locked then (s, pc) else (s.(locked := true), WriteReaders(spin))
    case WriteReaders(spin) => (s, if s.readers != 0 then WriteLeave(spin, false) else WriteWriters(spin))
    case WriteWriters(spin) => (s, if s.writers != 0 then WriteLeave(spin, false) else WriteLoad(spin))
    case WriteLoad(spin) => (s, WriteStore(spin, s.writers))
    case WriteStore(spin, v) => (s.(writers := v + 1), WriteLeave(spin, true))
    case WriteLeave(spin, ok) => (s.(locked := false), if ok then (if spin then WriteRetract else Writing)
      else if spin then WriteEnter(spin) else Idle)
    case WriteRetract => (s.(pendings := s.pendings - 1), Writing)
    case Writing => (s, UnwriteEnter)
    case UnwriteEnter => if s.locked then (s, pc) else (s.(locked := true), UnwriteLoad)
    case UnwriteLoad => (s, UnwriteStore(s.writers))
    case UnwriteStore(v) => (s.(writers := v - 1, failed := s.failed || v <= 0), UnwriteLeave)
    case UnwriteLeave => (s.(locked := false), Idle)
    case _ => (s, pc)
  }

  function Step(s: State, i: nat, call: Call): State {
    if i >= |s.pcs| then s
    else
      var m := Move(s.sh, s.pcs[i], call);
      State(m.0, s.pcs[i := m.1])
  }

  /** Any schedule of any threads. */
  function Run(s: State, schedule: seq<(nat, Call)>): State
    decreases |schedule|
  {
    if schedule == [] then s
    else
      var n := |schedule| - 1;
      Step(Run(s, schedule[..n]), schedule[n].0, schedule[n].1)
  }

  // ----- Who is where --------------------------------------------------------------------------

  /** Threads inside the inner spin lock. */
  predicate Inside(pc: Pc) {
    || pc.ReadPendings? || pc.ReadWriters? || pc.ReadLoad? || pc.ReadStore? || pc.ReadLeave?
    || pc.UnreadLoad? || pc.UnreadStore? || pc.UnreadLeave?
    || pc.WriteReaders? || pc.WriteWriters? || pc.WriteLoad? || pc.WriteStore? || pc.WriteLeave?
    || pc.UnwriteLoad? || pc.UnwriteStore? || pc.UnwriteLeave?
  }

  /** Threads that have been counted as readers and not yet discounted. */
  predicate Reads(pc: Pc) {
    (pc.ReadLeave? && pc.ok) || pc.Reading? || pc.UnreadEnter? || pc.UnreadLoad? || pc.UnreadStore?
  }

  predicate Writes(pc: Pc) {
    (pc.WriteLeave? && pc.ok) || pc.WriteRetract? || pc.Writing? || pc.UnwriteEnter? || pc.UnwriteLoad?
      || pc.UnwriteStore?
  }

  /** Writers that have announced themselves. */
  predicate Pends(pc: Pc) {
    || pc.WriteRetract?
    || ((pc.WriteEnter? || pc.WriteReaders? || pc.WriteWriters? || pc.WriteLoad? || pc.WriteStore? || pc.WriteLeave?)
      && pc.spin)
  }

  function Count(p: Pc -> bool, pcs: seq<Pc>): nat {
    if pcs == [] then 0 else Count(p, pcs[..|pcs| - 1]) + One(p(pcs[|pcs| - 1]))
  }

  lemma {:induction false} CountUpdate(p: Pc -> bool, pcs: seq<Pc>, i: nat, pc: Pc)
    requires i < |pcs|
    ensures Count(p, pcs[i := pc]) + One(p(pcs[i])) == Count(p, pcs) + One(p(pc))
    decreases |pcs|
  {
    var n := |pcs| - 1;
    if i == n {
      assert pcs[i := pc][..n] == pcs[..n];
    } else {
      assert pcs[i := pc][..n] == pcs[..n][i := pc];
      CountUpdate(p, pcs[..n], i, pc);
    }
  }

  lemma {:induction false} CountNone(p: Pc -> bool, pcs: seq<Pc>)
    requires forall i | 0 <= i < |pcs| :: !p(pcs[i])
    ensures Count(p, pcs) == 0
  {
    if pcs != [] {
      CountNone(p, pcs[..|pcs| - 1]);
    }
  }

  /** Counting at least one, or two, of them. */
  lemma {:induction false} CountSome(p: Pc -> bool, pcs: seq<Pc>, i: nat, j: nat)
    requires i < |pcs| && j < |pcs| && p(pcs[i]) && p(pcs[j])
    ensures Count(p, pcs) >= 1 && (i != j ==> Count(p, pcs) >= 2)
  {
    var without := pcs[i := Idle];
    if p(Idle) {
      CountAll(p, pcs, i, j);
    } else {
      CountUpdate(p, pcs, i, Idle);
      if i != j {
        CountUpdate(p, without, j, Idle);
      }
    }
  }

  lemma {:induction false} CountAll(p: Pc -> bool, pcs: seq<Pc>, i: nat, j: nat)
    requires i < |pcs| && j < |pcs| && p(pcs[i]) && p(pcs[j])
    ensures Count(p, pcs) >= 1 && (i != j ==> Count(p, pcs) >= 2)
    decreases |pcs|
  {
    var n := |pcs| - 1;
    if i < n && j < n {
      CountAll(p, pcs[..n], i, j);
    } else if i < n {
      CountAll(p, pcs[..n], i, i);
    } else if j < n {
      CountAll(p, pcs[..n], j, j);
    }
  }

  // ----- The invariant -------------------------------------------------------------------------

  /** What a thread inside the inner lock has learnt and may rely on. */
  predicate Knows(s: Shared, pc: Pc) {
    match pc
    case ReadPendings(_, late) => late ==> s.pendings > 0 || s.writers > 0
    case ReadWriters(_, late) => late ==> s.writers > 0
    case ReadLoad(_, late) => !late && s.writers == 0
    case ReadStore(_, late, v) => !late && s.writers == 0 && v == s.readers
    case ReadLeave(_, late, ok) => ok ==> !late
    case UnreadStore(v) => v == s.readers
    case WriteWriters(_) => s.readers == 0
    case WriteLoad(_) => s.readers == 0 && s.writers == 0
    case WriteStore(_, v) => s.readers == 0 && s.writers == 0 && v == 0
    case UnwriteStore(v) => v == s.writers
    case _ => true
  }

  /** The counters are the counts. */
  predicate Exact(s: State) {
    && Count(Inside, s.pcs) == One(s.sh.locked)
    && s.sh.readers == Count(Reads, s.pcs)
    && s.sh.writers == Count(Writes, s.pcs)
    && s.sh.pendings == Count(Pends, s.pcs)
  }

  predicate Exclusive(s: Shared) {
    !s.failed && s.writers <= 1 && (s.writers == 1 ==> s.readers == 0)
  }

  predicate Inv(s: State) {
    Exact(s) && Exclusive(s.sh) && forall i | 0 <= i < |s.pcs| :: Knows(s.sh, s.pcs[i])
  }

  /** What the counts say about a single thread. */
  predicate Counted(s: Shared, pc: Pc) {
    && 0 <= s.readers && 0 <= s.writers && 0 <= s.pendings
    && (Inside(pc) ==> s.locked) && (Reads(pc) ==> s.readers > 0) && (Writes(pc) ==> s.writers > 0)
      && (Pends(pc) ==> s.pendings > 0)
  }

  lemma InitInv(s: State)
    requires Init(s)
    ensures Inv(s)
  {
    CountNone(Inside, s.pcs);
    CountNone(Reads, s.pcs);
    CountNone(Writes, s.pcs);
    CountNone(Pends, s.pcs);
  }

  /** Outside the inner lock a thread relies on nothing. */
  lemma OutsideKnows(s: Shared, pc: Pc)
    requires !Inside(pc)
    ensures Knows(s, pc)
  {
  }

  lemma IsCounted(s: State, i: nat)
    requires Exact(s) && i < |s.pcs|
    ensures Counted(s.sh, s.pcs[i])
  {
    hide Inside, Reads, Writes, Pends, Count;
    if Inside(s.pcs[i]) { CountSome(Inside, s.pcs, i, i); }
    if Reads(s.pcs[i]) { CountSome(Reads, s.pcs, i, i); }
    if Writes(s.pcs[i]) { CountSome(Writes, s.pcs, i, i); }
    if Pends(s.pcs[i]) { CountSome(Pends, s.pcs, i, i); }
  }

  /** While thread i is inside, or nobody is, no other thread is. */
  lemma Alone(s: State, i: nat, j: nat)
    requires Exact(s) && i < |s.pcs| && j < |s.pcs| && i != j && (Inside(s.pcs[i]) || !s.sh.locked)
    ensures !Inside(s.pcs[j])
  {
    hide Count, Inside;
    if Inside(s.pcs[j]) {
      CountSome(Inside, s.pcs, j, if Inside(s.pcs[i]) then i else j);
    }
  }

  // Each shared variable changes as the moving thread's own standing does.

  lemma MoveLocks(s: Shared, pc: Pc, call: Call)
    requires Inside(pc) ==> s.locked
    ensures var (s', pc') := Move(s, pc, call); One(s'.locked) + One(Inside(pc)) == One(s.locked) + One(Inside(pc'))
  {
  }

  lemma MoveReaders(s: Shared, pc: Pc, call: Call)
    requires Knows(s, pc)
    ensures var (s', pc') := Move(s, pc, call); s'.readers + One(Reads(pc)) == s.readers + One(Reads(pc'))
  {
  }

  lemma MoveWriters(s: Shared, pc: Pc, call: Call)
    requires Knows(s, pc)
    ensures var (s', pc') := Move(s, pc, call); s'.writers + One(Writes(pc)) == s.writers + One(Writes(pc'))
  {
  }

  lemma MovePendings(s: Shared, pc: Pc, call: Call)
    ensures var (s', pc') := Move(s, pc, call); s'.pendings + One(Pends(pc)) == s.pendings + One(Pends(pc'))
  {
  }

  lemma MoveExcludes(s: Shared, pc: Pc, call: Call)
    requires Exclusive(s) && Counted(s, pc) && Knows(s, pc)
    ensures var (s', pc') := Move(s, pc, call); Exclusive(s') && Knows(s', pc')
  {
  }

  /** A thread outside the inner lock only moves the count of pending writers, and takes one off only once it writes. */
  lemma MoveOutside(s: Shared, pc: Pc, call: Call, other: Pc)
    requires Counted(s, pc) && !Inside(pc) && s.locked && Knows(s, other)
    ensures Knows(Move(s, pc, call).0, other)
  {
  }

  lemma StepExact(s: State, i: nat, call: Call)
    requires Exact(s) && i < |s.pcs| && Knows(s.sh, s.pcs[i])
    ensures Exact(Step(s, i, call))
  {
    hide Count, Move, Knows, Reads, Writes, Pends, Inside;
    IsCounted(s, i);
    MoveLocks(s.sh, s.pcs[i], call);
    MoveReaders(s.sh, s.pcs[i], call);
    MoveWriters(s.sh, s.pcs[i], call);
    MovePendings(s.sh, s.pcs[i], call);
    var pc' := Move(s.sh, s.pcs[i], call).1;
    CountUpdate(Inside, s.pcs, i, pc');
    CountUpdate(Reads, s.pcs, i, pc');
    CountUpdate(Writes, s.pcs, i, pc');
    CountUpdate(Pends, s.pcs, i, pc');
  }

  lemma StepInv(s: State, i: nat, call: Call)
    requires Inv(s)
    ensures Inv(Step(s, i, call))
  {
    if i < |s.pcs| {
      hide Count, Move, Knows, Exact, Exclusive, Counted, Inside;
      var s' := Step(s, i, call);
      IsCounted(s, i);
      StepExact(s, i, call);
      MoveExcludes(s.sh, s.pcs[i], call);
      forall j | 0 <= j < |s'.pcs| && j != i ensures Knows(s'.sh, s'.pcs[j]) {
        if Inside(s.pcs[i]) || !s.sh.locked {
          Alone(s, i, j);
          OutsideKnows(s'.sh, s.pcs[j]);
        } else {
          MoveOutside(s.sh, s.pcs[i], call, s.pcs[j]);
        }
      }
    }
  }

  lemma {:induction false} Always(s: State, schedule: seq<(nat, Call)>)
    requires Init(s)
    ensures Inv(Run(s, schedule))
    decreases |schedule|
  {
    if schedule == [] {
      InitInv(s);
    } else {
      var n := |schedule| - 1;
      Always(s, schedule[..n]);
      StepInv(Run(s, schedule[..n]), schedule[n].0, schedule[n].1);
    }
  }

  // ----- What the lock promises ----------------------------------------------------------------

  /** In every reachable state a writing thread is alone, and no release assertion has fired. */
  lemma Exclusion(s: State, schedule: seq<(nat, Call)>, i: nat, j: nat)
    requires Init(s)
    ensures var t := Run(s, schedule);
            && !t.sh.failed && t.sh.writers <= 1 && (t.sh.writers == 1 ==> t.sh.readers == 0)
            && (i < |t.pcs| && j < |t.pcs| && i != j && t.pcs[i].Writing? ==> !t.pcs[j].Writing? && !t.pcs[j].Reading?)
  {
    Always(s, schedule);
    hide Run, Count;
    var t := Run(s, schedule);
    if i < |t.pcs| && j < |t.pcs| && i != j && t.pcs[i].Writing? {
      CountSome(Writes, t.pcs, i, if Writes(t.pcs[j]) then j else i);
      if Reads(t.pcs[j]) {
        CountSome(Reads, t.pcs, j, j);
      }
    }
  }

  /** When no thread is between two accesses of a call, the counters are the numbers of holders, and nobody is
      pending. */
  lemma CountersAreHolders(s: State, schedule: seq<(nat, Call)>)
    requires Init(s)
    requires forall i | 0 <= i < |Run(s, schedule).pcs| ::
      var pc := Run(s, schedule).pcs[i]; pc.Idle? || pc.Reading? || pc.Writing?
    ensures var t := Run(s, schedule);
            t.sh.readers == Count(IsReading, t.pcs) && t.sh.writers == Count(IsWriting, t.pcs) && t.sh.pendings == 0
              && !t.sh.locked
  {
    Always(s, schedule);
    hide Run, Count, Knows;
    var t := Run(s, schedule);
    CountSame(Reads, IsReading, t.pcs);
    CountSame(Writes, IsWriting, t.pcs);
    CountNone(Pends, t.pcs);
    CountNone(Inside, t.pcs);
  }

  predicate IsReading(pc: Pc) {
    pc.Reading?
  }

  predicate IsWriting(pc: Pc) {
    pc.Writing?
  }

  lemma {:induction false} CountSame(p: Pc -> bool, q: Pc -> bool, pcs: seq<Pc>)
    requires forall i | 0 <= i < |pcs| :: p(pcs[i]) == q(pcs[i])
    ensures Count(p, pcs) == Count(q, pcs)
  {
    if pcs != [] {
      CountSame(p, q, pcs[..|pcs| - 1]);
    }
  }

  /** A read attempt that takes the inner lock while a writer is pending fails, even if that writer stops pending before
      the attempt looks. */
  lemma WritersFirst(s: State, schedule: seq<(nat, Call)>, i: nat)
    requires Init(s) && i < |Run(s, schedule).pcs|
    ensures var pc := Run(s, schedule).pcs[i]; pc.ReadLeave? && pc.late ==> !pc.ok
  {
    Always(s, schedule);
    hide Run, Count;
    assert Knows(Run(s, schedule).sh, Run(s, schedule).pcs[i]);
  }

  /** A thread outside the inner lock, while it is held, touches nothing but the count of pending writers. */
  lemma MoveOutsideKeeps(s: Shared, pc: Pc, call: Call)
    requires s.locked && !Inside(pc)
    ensures var s' := Move(s, pc, call).0; s'.locked && s'.readers == s.readers && s'.writers == s.writers
  {
  }

  lemma InvIsExact(s: State)
    requires Inv(s)
    ensures Exact(s)
  {
  }

  /** n steps of one thread with nobody in between. */
  function Moves(s: Shared, pc: Pc, call: Call, n: nat): (Shared, Pc) {
    if n == 0 then (s, pc) else var m := Moves(s, pc, call, n - 1); Move(m.0, m.1, call)
  }

  lemma OneMore(s: Shared, pc: Pc, call: Call, n: nat)
    ensures Moves(s, pc, call, 0) == (s, pc)
    ensures Moves(s, pc, call, n + 1) == var m := Moves(s, pc, call, n); Move(m.0, m.1, call)
  {
    hide Move;
  }

  /** How often a schedule picks thread i. */
  ghost function Turns(schedule: seq<(nat, Call)>, i: nat): nat {
    if schedule == [] then 0
    else Turns(schedule[..|schedule| - 1], i) + One(schedule[|schedule| - 1].0 == i)
  }

  predicate SameButPendings(a: Shared, b: Shared) {
    a.locked == b.locked && a.readers == b.readers && a.writers == b.writers
  }

  /** Once inside the inner lock and past its look at the pending writers, a thread does not depend on their number. */
  predicate Settled(pc: Pc) {
    Inside(pc) && !pc.ReadPendings?
  }

  lemma SameMove(a: Shared, b: Shared, pc: Pc, c: Call, d: Call)
    requires SameButPendings(a, b) && Settled(pc)
    ensures Move(a, pc, c).1 == Move(b, pc, d).1 && SameButPendings(Move(a, pc, c).0, Move(b, pc, d).0)
  {
  }

  /** Whatever the others do in between, a thread inside the inner lock proceeds as if it were alone. */
  lemma {:induction false} AsIfAlone(s: State, i: nat, call: Call, schedule: seq<(nat, Call)>)
    requires Inv(s) && i < |s.pcs|
    requires forall k: nat | k < Turns(schedule, i) :: Settled(Moves(s.sh, s.pcs[i], call, k).1)
    ensures var t, m := Run(s, schedule), Moves(s.sh, s.pcs[i], call, Turns(schedule, i));
            && Inv(t) && |t.pcs| == |s.pcs| && t.pcs[i] == m.1
            && (Inside(m.1) ==> SameButPendings(t.sh, m.0))
    decreases |schedule|
  {
    hide Move, Inv, Inside;
    if schedule != [] {
      var n := |schedule| - 1;
      var before, j, c := schedule[..n], schedule[n].0, schedule[n].1;
      AsIfAlone(s, i, call, before);
      var t, k := Run(s, before), Turns(before, i);
      var m := Moves(s.sh, s.pcs[i], call, k);
      StepInv(t, j, c);
      if j == i {
        assert Settled(m.1);
        SameMove(t.sh, m.0, m.1, c, call);
      } else if j < |t.pcs| && Inside(m.1) {
        InvIsExact(t);
        IsCounted(t, i);
        Alone(t, i, j);
        MoveOutsideKeeps(t.sh, t.pcs[j], c);
      }
    }
  }

  /** How a read attempt ends is decided when it looks: it gets the lock exactly if no writer is pending or writing
      then, whatever the others do meanwhile; otherwise it comes out empty-handed. */
  lemma AttemptDecided(s: State, i: nat, call: Call, schedule: seq<(nat, Call)>)
    requires Inv(s) && i < |s.pcs| && s.pcs[i].ReadPendings?
    ensures var t, n, spin := Run(Step(s, i, call), schedule), Turns(schedule, i), s.pcs[i].spin;
            && i < |t.pcs|
            && (s.sh.pendings == 0 && s.sh.writers == 0 && n == 4 ==> t.pcs[i] == Reading)
            && (s.sh.pendings != 0 && n == 1 ==> t.pcs[i] == if spin then ReadEnter(true) else Idle)
            && (s.sh.pendings == 0 && s.sh.writers != 0 && n == 2 ==>
              t.pcs[i] == if spin then ReadEnter(true) else Idle)
  {
    hide Run, Inv;
    var s1, n := Step(s, i, call), Turns(schedule, i);
    StepInv(s, i, call);
    ReadMovesFrom(s.sh, s.pcs[i], call);
    var sh, pc := s1.sh, s1.pcs[i];
    hide Moves, Move, Step;
    if (s.sh.pendings == 0 && s.sh.writers == 0 && n == 4) || (s.sh.pendings != 0 && n == 1)
       || (s.sh.pendings == 0 && s.sh.writers != 0 && n == 2) {
      AsIfAlone(s1, i, call, schedule);
    } else {
      RunSize(s1, schedule);
    }
  }

  lemma {:induction false} RunSize(s: State, schedule: seq<(nat, Call)>)
    ensures |Run(s, schedule).pcs| == |s.pcs|
    decreases |schedule|
  {
    hide Move;
    if schedule != [] {
      RunSize(s, schedule[..|schedule| - 1]);
    }
  }

  /** The steps of a read attempt after its look at the pending writers. */
  lemma ReadMovesFrom(s: Shared, pc: Pc, call: Call)
    requires pc.ReadPendings?
    ensures var (sh, pc1) := Move(s, pc, call);
            && (forall k: nat | k < (if s.pendings != 0 then 1 else if s.writers != 0 then 2 else 4) ::
                  Settled(Moves(sh, pc1, call, k).1))
            && (s.pendings != 0 ==> Moves(sh, pc1, call, 1).1 == if pc.spin then ReadEnter(true) else Idle)
            && (s.pendings == 0 && s.writers != 0 ==>
              Moves(sh, pc1, call, 2).1 == if pc.spin then ReadEnter(true) else Idle)
            && (s.pendings == 0 && s.writers == 0 ==> Moves(sh, pc1, call, 4).1 == Reading)
  {
    hide Moves;
    var (sh, pc1) := Move(s, pc, call);
    OneMore(sh, pc1, call, 0);
    OneMore(sh, pc1, call, 1);
    OneMore(sh, pc1, call, 2);
    OneMore(sh, pc1, call, 3);
    forall k: nat | k < (if s.pendings != 0 then 1 else if s.writers != 0 then 2 else 4)
      ensures Settled(Moves(sh, pc1, call, k).1)
    {
      assert k == 0 || k == 1 || k == 2 || k == 3;
    }
  }

  /** How a write attempt ends is decided likewise: it gets the lock exactly if nobody reads or writes then. */
  lemma WriteDecided(s: State, i: nat, call: Call, schedule: seq<(nat, Call)>)
    requires Inv(s) && i < |s.pcs| && s.pcs[i].WriteReaders?
    ensures var t, n, spin := Run(s, schedule), Turns(schedule, i), s.pcs[i].spin;
            && i < |t.pcs|
            && (s.sh.readers == 0 && s.sh.writers == 0 && n == 5 ==> t.pcs[i] == if spin then WriteRetract else Writing)
            && (s.sh.readers != 0 && n == 2 ==> t.pcs[i] == if spin then WriteEnter(true) else Idle)
            && (s.sh.readers == 0 && s.sh.writers != 0 && n == 3 ==>
              t.pcs[i] == if spin then WriteEnter(true) else Idle)
  {
    hide Run, Inv, Moves, Move, Step;
    var n := Turns(schedule, i);
    RunSize(s, schedule);
    if s.sh.readers != 0 && n == 2 {
      ReadersBlock(s.sh, s.pcs[i], call);
      AsIfAlone(s, i, call, schedule);
    } else if s.sh.readers == 0 && s.sh.writers != 0 && n == 3 {
      WriterBlocks(s.sh, s.pcs[i], call);
      AsIfAlone(s, i, call, schedule);
    } else if s.sh.readers == 0 && s.sh.writers == 0 && n == 5 {
      NobodyBlocks(s.sh, s.pcs[i], call);
      AsIfAlone(s, i, call, schedule);
    }
  }

  lemma ReadersBlock(s: Shared, pc: Pc, call: Call)
    requires pc.WriteReaders? && s.readers != 0
    ensures forall k: nat | k < 2 :: Settled(Moves(s, pc, call, k).1)
    ensures Moves(s, pc, call, 2).1 == if pc.spin then WriteEnter(true) else Idle
  {
    hide Moves;
    OneMore(s, pc, call, 0);
    OneMore(s, pc, call, 1);
    forall k: nat | k < 2 ensures Settled(Moves(s, pc, call, k).1) {
      assert k == 0 || k == 1;
    }
  }

  lemma WriterBlocks(s: Shared, pc: Pc, call: Call)
    requires pc.WriteReaders? && s.readers == 0 && s.writers != 0
    ensures forall k: nat | k < 3 :: Settled(Moves(s, pc, call, k).1)
    ensures Moves(s, pc, call, 3).1 == if pc.spin then WriteEnter(true) else Idle
  {
    hide Moves;
    OneMore(s, pc, call, 0);
    OneMore(s, pc, call, 1);
    OneMore(s, pc, call, 2);
    forall k: nat | k < 3 ensures Settled(Moves(s, pc, call, k).1) {
      assert k == 0 || k == 1 || k == 2;
    }
  }

  lemma LooksClear(s: Shared, pc: Pc, call: Call)
    requires pc.WriteReaders? && s.readers == 0 && s.writers == 0
    ensures Moves(s, pc, call, 0) == (s, pc)
    ensures Moves(s, pc, call, 1) == (s, WriteWriters(pc.spin))
    ensures Moves(s, pc, call, 2) == (s, WriteLoad(pc.spin))
    ensures Moves(s, pc, call, 3) == (s, WriteStore(pc.spin, 0))
  {
    hide Moves;
    OneMore(s, pc, call, 0);
    OneMore(s, pc, call, 1);
    OneMore(s, pc, call, 2);
  }

  lemma NobodyBlocks(s: Shared, pc: Pc, call: Call)
    requires pc.WriteReaders? && s.readers == 0 && s.writers == 0
    ensures forall k: nat | k < 5 :: Settled(Moves(s, pc, call, k).1)
    ensures Moves(s, pc, call, 5).1 == if pc.spin then WriteRetract else Writing
  {
    LooksClear(s, pc, call);
    hide Moves;
    OneMore(s, pc, call, 3);
    OneMore(s, pc, call, 4);
    forall k: nat | k < 5 ensures Settled(Moves(s, pc, call, k).1) {
      assert k == 0 || k == 1 || k == 2 || k == 3 || k == 4;
    }
  }

  // ----- The acquire functions do not come back without the lock -------------------------------

  /** Still in rwlock_acquire_read. */
  ghost predicate WantsRead(pc: Pc) {
    (pc.ReadEnter? || pc.ReadPendings? || pc.ReadWriters? || pc.ReadLoad? || pc.ReadStore? || pc.ReadLeave?) && pc.spin
  }

  /** Still in rwlock_acquire_write. */
  ghost predicate WantsWrite(pc: Pc) {
    pc.WriteAnnounce? || Pends(pc)
  }

  lemma WantsOn(s: Shared, pc: Pc, call: Call)
    ensures WantsRead(pc) ==> WantsRead(Move(s, pc, call).1) || Move(s, pc, call).1 == Reading
    ensures WantsWrite(pc) ==> WantsWrite(Move(s, pc, call).1) || Move(s, pc, call).1 == Writing
  {
  }

  lemma Begins(s: State, i: nat)
    requires i < |s.pcs| && s.pcs[i] == Idle
    ensures WantsRead(Step(s, i, AcquireRead).pcs[i]) && WantsWrite(Step(s, i, AcquireWrite).pcs[i])
  {
  }

  /** Thread i was at pc at some point of the run. */
  ghost predicate Was(s: State, schedule: seq<(nat, Call)>, i: nat, pc: Pc) {
    exists n: nat {:trigger schedule[..n]} | n <= |schedule| ::
      i < |Run(s, schedule[..n]).pcs| && Run(s, schedule[..n]).pcs[i] == pc
  }

  lemma WasLonger(s: State, schedule: seq<(nat, Call)>, i: nat, pc: Pc)
    requires schedule != []
    ensures Was(s, schedule[..|schedule| - 1], i, pc) ==> Was(s, schedule, i, pc)
    ensures i < |Run(s, schedule).pcs| && Run(s, schedule).pcs[i] == pc ==> Was(s, schedule, i, pc)
  {
    hide Run;
    var before := schedule[..|schedule| - 1];
    if Was(s, before, i, pc) {
      var n: nat :| n <= |before| && i < |Run(s, before[..n]).pcs| && Run(s, before[..n]).pcs[i] == pc;
      assert before[..n] == schedule[..n];
    }
    assert schedule[..|schedule|] == schedule;
  }

  lemma {:induction false} StaysUntil(s: State, i: nat, schedule: seq<(nat, Call)>)
    requires i < |s.pcs|
    ensures i < |Run(s, schedule).pcs|
    ensures WantsRead(s.pcs[i]) ==> WantsRead(Run(s, schedule).pcs[i]) || Was(s, schedule, i, Reading)
    ensures WantsWrite(s.pcs[i]) ==> WantsWrite(Run(s, schedule).pcs[i]) || Was(s, schedule, i, Writing)
    decreases |schedule|
  {
    hide Move, WantsRead, WantsWrite, Was;
    if schedule != [] {
      var n := |schedule| - 1;
      StaysUntil(s, i, schedule[..n]);
      var t := Run(s, schedule[..n]);
      WantsOn(t.sh, t.pcs[i], schedule[n].1);
      WasLonger(s, schedule, i, Reading);
      WasLonger(s, schedule, i, Writing);
    }
  }

  /** A thread that called rwlock_acquire_read, or rwlock_acquire_write, is not back before it held the lock. */
  lemma AcquiredBeforeBack(s: State, i: nat, schedule: seq<(nat, Call)>)
    requires i < |s.pcs| && s.pcs[i] == Idle
    ensures var s1 := Step(s, i, AcquireRead);
            i < |Run(s1, schedule).pcs| && (Run(s1, schedule).pcs[i] == Idle ==> Was(s1, schedule, i, Reading))
    ensures var s1 := Step(s, i, AcquireWrite);
            i < |Run(s1, schedule).pcs| && (Run(s1, schedule).pcs[i] == Idle ==> Was(s1, schedule, i, Writing))
  {
    Begins(s, i);
    StaysUntil(Step(s, i, AcquireRead), i, schedule);
    StaysUntil(Step(s, i, AcquireWrite), i, schedule);
    hide Run, Move, Was;
  }

  // ----- The try functions look once -----------------------------------------------------------

  /** Still in rwlock_try_acquire_read. */
  ghost predicate TriesRead(pc: Pc) {
    (pc.ReadEnter? || pc.ReadPendings? || pc.ReadWriters? || pc.ReadLoad? || pc.ReadStore? || pc.ReadLeave?) && !pc.spin
  }

  /** Still in rwlock_try_acquire_write; such a thread is never counted as pending. */
  ghost predicate TriesWrite(pc: Pc) {
    && (pc.WriteEnter? || pc.WriteReaders? || pc.WriteWriters? || pc.WriteLoad? || pc.WriteStore? || pc.WriteLeave?)
    && !pc.spin
  }

  /** How far an attempt got. */
  ghost function Progress(pc: Pc): nat {
    if pc.ReadEnter? || pc.WriteEnter? then 0
    else if pc.ReadPendings? || pc.WriteReaders? then 1
    else if pc.ReadWriters? || pc.WriteWriters? then 2
    else if pc.ReadLoad? || pc.WriteLoad? then 3
    else if pc.ReadStore? || pc.WriteStore? then 4
    else 5
  }

  lemma TryMoves(s: Shared, pc: Pc, call: Call)
    ensures var pc' := Move(s, pc, call).1;
            && (TriesRead(pc) ==> pc' == Idle || pc' == Reading || (TriesRead(pc') && Progress(pc') >= Progress(pc)))
            && (TriesWrite(pc) ==> pc' == Idle || pc' == Writing || (TriesWrite(pc') && Progress(pc') >= Progress(pc)))
  {
  }

  lemma TryBegins(s: State, i: nat)
    requires i < |s.pcs| && s.pcs[i] == Idle
    ensures TriesRead(Step(s, i, TryAcquireRead).pcs[i]) && TriesWrite(Step(s, i, TryAcquireWrite).pcs[i])
  {
  }

  /** From any point of a try call on: the call has come back, or it is in the same attempt and no less far. */
  lemma {:induction false} TriesOnce(s: State, i: nat, schedule: seq<(nat, Call)>)
    requires i < |s.pcs|
    ensures i < |Run(s, schedule).pcs|
    ensures var pc, pc' := s.pcs[i], Run(s, schedule).pcs[i];
            && (TriesRead(pc) && !Was(s, schedule, i, Idle) && !Was(s, schedule, i, Reading) ==>
              TriesRead(pc') && Progress(pc') >= Progress(pc))
            && (TriesWrite(pc) && !Was(s, schedule, i, Idle) && !Was(s, schedule, i, Writing) ==>
              TriesWrite(pc') && Progress(pc') >= Progress(pc))
    decreases |schedule|
  {
    hide Move, TriesRead, TriesWrite, Was, Progress;
    if schedule != [] {
      var n := |schedule| - 1;
      TriesOnce(s, i, schedule[..n]);
      var t := Run(s, schedule[..n]);
      TryMoves(t.sh, t.pcs[i], schedule[n].1);
      WasLonger(s, schedule, i, Idle);
      WasLonger(s, schedule, i, Reading);
      WasLonger(s, schedule, i, Writing);
    }
  }

  // ----- How far that promise goes -------------------------------------------------------------

  ghost function Repeat(i: nat, call: Call, n: nat): seq<(nat, Call)> {
    if n == 0 then [] else Repeat(i, call, n - 1) + [(i, call)]
  }

  lemma {:induction false} RunAlone(s: State, schedule: seq<(nat, Call)>, i: nat, call: Call, n: nat)
    requires i < |Run(s, schedule).pcs|
    ensures var t := Run(s, schedule);
            var m := Moves(t.sh, t.pcs[i], call, n);
            Run(s, schedule + Repeat(i, call, n)) == State(m.0, t.pcs[i := m.1])
  {
    hide Move, Run, Step, Moves;
    var t := Run(s, schedule);
    if n == 0 {
      OneMore(t.sh, t.pcs[i], call, 0);
      assert schedule + Repeat(i, call, n) == schedule;
      assert t.pcs[i := t.pcs[i]] == t.pcs;
    } else {
      assert schedule + Repeat(i, call, n) == schedule + Repeat(i, call, n - 1) + [(i, call)];
      hide Repeat;
      RunAlone(s, schedule, i, call, n - 1);
      OneMore(t.sh, t.pcs[i], call, n - 1);
      RunLast(s, schedule + Repeat(i, call, n - 1), i, call);
      var m := Moves(t.sh, t.pcs[i], call, n - 1);
      StepAt(m.0, t.pcs, i, m.1, call);
    }
  }

  lemma StepAt(sh: Shared, pcs: seq<Pc>, i: nat, pc: Pc, call: Call)
    requires i < |pcs|
    ensures Step(State(sh, pcs[i := pc]), i, call) == State(Move(sh, pc, call).0, pcs[i := Move(sh, pc, call).1])
  {
    hide Move;
  }

  lemma RunLast(s: State, schedule: seq<(nat, Call)>, i: nat, call: Call)
    ensures Run(s, schedule + [(i, call)]) == Step(Run(s, schedule), i, call)
  {
    hide Step;
    assert (schedule + [(i, call)])[..|schedule|] == schedule;
  }

  lemma RunNothing(s: State)
    ensures Run(s, []) == s
  {
  }

  lemma {:induction false} MovesOn(s: Shared, pc: Pc, call: Call, k: nat, n: nat)
    ensures var m := Moves(s, pc, call, k); Moves(s, pc, call, k + n) == Moves(m.0, m.1, call, n)
  {
    hide Move;
    if n > 0 {
      MovesOn(s, pc, call, k, n - 1);
    }
  }

  /** A read attempt that began while a writer was pending, but took the inner lock only after that writer was done,
      succeeds. */
  lemma EarlyAttemptMaySucceed()
    ensures exists first, later ::
      var s := State(Shared(false, 0, 0, 0, false), [Idle, Idle]);
      var t := Run(s, first);
      && Init(s) && t.sh.pendings == 1 && t.pcs == [WriteEnter(true), ReadEnter(false)]
      && Run(s, first + later).pcs == [Idle, Reading]
  {
    hide Move, Step, Run, Moves, Repeat;
    var s := State(Shared(false, 0, 0, 0, false), [Idle, Idle]);
    RunNothing(s);
    WriterAnnounces();
    WriterPasses();
    ReaderPasses();
    RunAlone(s, [], 0, AcquireWrite, 2);
    var a := [] + Repeat(0, AcquireWrite, 2);
    assert Run(s, a).pcs == [WriteEnter(true), Idle];
    RunAlone(s, a, 1, TryAcquireRead, 1);
    var first := a + Repeat(1, TryAcquireRead, 1);
    assert Run(s, first).pcs == [WriteEnter(true), ReadEnter(false)];
    RunAlone(s, first, 0, AcquireWrite, 12);
    var b := first + Repeat(0, AcquireWrite, 12);
    assert Run(s, b).pcs == [Idle, ReadEnter(false)];
    RunAlone(s, b, 1, TryAcquireRead, 6);
    var later := Repeat(0, AcquireWrite, 12) + Repeat(1, TryAcquireRead, 6);
    assert first + later == b + Repeat(1, TryAcquireRead, 6);
    assert Run(s, first + later).pcs == [Idle, Reading];
  }

  lemma WriterAnnounces()
    ensures Moves(Shared(false, 0, 0, 0, false), Idle, AcquireWrite, 2)
      == (Shared(false, 1, 0, 0, false), WriteEnter(true))
    ensures Moves(Shared(false, 1, 0, 0, false), Idle, TryAcquireRead, 1)
      == (Shared(false, 1, 0, 0, false), ReadEnter(false))
  {
    assert Moves(Shared(false, 0, 0, 0, false), Idle, AcquireWrite, 1)
      == (Shared(false, 0, 0, 0, false), WriteAnnounce);
    assert Moves(Shared(false, 1, 0, 0, false), Idle, TryAcquireRead, 0) == (Shared(false, 1, 0, 0, false), Idle);
  }

  /** A pending writer acquires and releases. */
  lemma WriterPasses()
    ensures Moves(Shared(false, 1, 0, 0, false), WriteEnter(true), AcquireWrite, 12)
      == (Shared(false, 0, 0, 0, false), Idle)
  {
    WriterAcquires(AcquireWrite);
    WriterReleases(AcquireWrite);
    MovesOn(Shared(false, 1, 0, 0, false), WriteEnter(true), AcquireWrite, 7, 5);
  }

  lemma AcquireMoves(c: Call)
    ensures Move(Shared(false, 1, 0, 0, false), WriteEnter(true), c)
      == (Shared(true, 1, 0, 0, false), WriteReaders(true))
    ensures Move(Shared(true, 1, 0, 0, false), WriteReaders(true), c)
      == (Shared(true, 1, 0, 0, false), WriteWriters(true))
    ensures Move(Shared(true, 1, 0, 0, false), WriteWriters(true), c) == (Shared(true, 1, 0, 0, false), WriteLoad(true))
    ensures Move(Shared(true, 1, 0, 0, false), WriteLoad(true), c)
      == (Shared(true, 1, 0, 0, false), WriteStore(true, 0))
  {
  }

  lemma AcquireMovesOn(c: Call)
    ensures Move(Shared(true, 1, 0, 0, false), WriteStore(true, 0), c)
      == (Shared(true, 1, 0, 1, false), WriteLeave(true, true))
    ensures Move(Shared(true, 1, 0, 1, false), WriteLeave(true, true), c)
      == (Shared(false, 1, 0, 1, false), WriteRetract)
    ensures Move(Shared(false, 1, 0, 1, false), WriteRetract, c) == (Shared(false, 0, 0, 1, false), Writing)
  {
  }

  lemma WriterAcquires(c: Call)
    ensures Moves(Shared(false, 1, 0, 0, false), WriteEnter(true), c, 7) == (Shared(false, 0, 0, 1, false), Writing)
  {
    hide Moves, Move;
    var s, p := Shared(false, 1, 0, 0, false), WriteEnter(true);
    AcquireMoves(c);
    AcquireMovesOn(c);
    OneMore(s, p, c, 0);
    OneMore(s, p, c, 1);
    OneMore(s, p, c, 2);
    OneMore(s, p, c, 3);
    OneMore(s, p, c, 4);
    OneMore(s, p, c, 5);
    OneMore(s, p, c, 6);
  }

  lemma ReleaseMoves(c: Call)
    ensures Move(Shared(false, 0, 0, 1, false), Writing, c) == (Shared(false, 0, 0, 1, false), UnwriteEnter)
    ensures Move(Shared(false, 0, 0, 1, false), UnwriteEnter, c) == (Shared(true, 0, 0, 1, false), UnwriteLoad)
    ensures Move(Shared(true, 0, 0, 1, false), UnwriteLoad, c) == (Shared(true, 0, 0, 1, false), UnwriteStore(1))
  {
  }

  lemma ReleaseMovesOn(c: Call)
    ensures Move(Shared(true, 0, 0, 1, false), UnwriteStore(1), c) == (Shared(true, 0, 0, 0, false), UnwriteLeave)
    ensures Move(Shared(true, 0, 0, 0, false), UnwriteLeave, c) == (Shared(false, 0, 0, 0, false), Idle)
  {
  }

  lemma WriterReleases(c: Call)
    ensures Moves(Shared(false, 0, 0, 1, false), Writing, c, 5) == (Shared(false, 0, 0, 0, false), Idle)
  {
    hide Moves, Move;
    var s, p := Shared(false, 0, 0, 1, false), Writing;
    ReleaseMoves(c);
    ReleaseMovesOn(c);
    OneMore(s, p, c, 0);
    OneMore(s, p, c, 1);
    OneMore(s, p, c, 2);
    OneMore(s, p, c, 3);
    OneMore(s, p, c, 4);
  }

  lemma ReadMoves(c: Call)
    ensures Move(Shared(false, 0, 0, 0, false), ReadEnter(false), c)
      == (Shared(true, 0, 0, 0, false), ReadPendings(false, false))
    ensures Move(Shared(true, 0, 0, 0, false), ReadPendings(false, false), c)
      == (Shared(true, 0, 0, 0, false), ReadWriters(false, false))
    ensures Move(Shared(true, 0, 0, 0, false), ReadWriters(false, false), c)
      == (Shared(true, 0, 0, 0, false), ReadLoad(false, false))
    ensures Move(Shared(true, 0, 0, 0, false), ReadLoad(false, false), c)
      == (Shared(true, 0, 0, 0, false), ReadStore(false, false, 0))
    ensures Move(Shared(true, 0, 0, 0, false), ReadStore(false, false, 0), c)
      == (Shared(true, 0, 1, 0, false), ReadLeave(false, false, true))
    ensures Move(Shared(true, 0, 1, 0, false), ReadLeave(false, false, true), c)
      == (Shared(false, 0, 1, 0, false), Reading)
  {
  }

  lemma ReaderPasses()
    ensures Moves(Shared(false, 0, 0, 0, false), ReadEnter(false), TryAcquireRead, 6)
      == (Shared(false, 0, 1, 0, false), Reading)
  {
    hide Moves, Move;
    var s, p, c := Shared(false, 0, 0, 0, false), ReadEnter(false), TryAcquireRead;
    ReadMoves(c);
    OneMore(s, p, c, 0);
    OneMore(s, p, c, 1);
    OneMore(s, p, c, 2);
    OneMore(s, p, c, 3);
    OneMore(s, p, c, 4);
    OneMore(s, p, c, 5);
  }
}
