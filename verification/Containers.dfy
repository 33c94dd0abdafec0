/** The containers behind domains and channels: slot tables (brutal-ds/slot.c) and rings (brutal-ds/ring.c). */
module Containers {

  const FIRST_CAPACITY: nat := 16

  /** A growable table of slots; slot i holds data[i] while used[i]. */
  datatype Slots = Slots(data: seq<nat>, used: seq<bool>)

  ghost predicate SlotsOk(s: Slots) {
    |s.data| == |s.used|
  }

  /** slot_valid_impl. */
  predicate SlotValid(s: Slots, i: int) {
    0 <= i < |s.used| && |s.data| == |s.used| && s.used[i]
  }

  /** The contents of a table as a map from handles. */
  ghost function Handles(s: Slots): (r: map<nat, nat>)
    requires SlotsOk(s)
  {
    map i: nat | i < |s.used| && s.used[i] :: s.data[i]
  }

  lemma ValidIsHandle(s: Slots, i: int)
    requires SlotsOk(s)
    ensures SlotValid(s, i) <==> i >= 0 && i in Handles(s)
  {
  }

  /** How often each object is held by the first n slots. */
  ghost function RefsUpTo(s: Slots, n: nat): multiset<nat>
    requires SlotsOk(s) && n <= |s.used|
  {
    if n == 0 then multiset{} else RefsUpTo(s, n - 1) + (if s.used[n - 1] then multiset{s.data[n - 1]} else multiset{})
  }

  ghost function SlotRefs(s: Slots): multiset<nat>
    requires SlotsOk(s)
  {
    RefsUpTo(s, |s.used|)
  }

  lemma {:induction false} RefsSame(s: Slots, t: Slots, n: nat)
    requires SlotsOk(s) && SlotsOk(t) && n <= |s.used| && n <= |t.used|
    requires forall i | 0 <= i < n :: s.used[i] == t.used[i] && (s.used[i] ==> s.data[i] == t.data[i])
    ensures RefsUpTo(s, n) == RefsUpTo(t, n)
  {
    if n > 0 { RefsSame(s, t, n - 1); }
  }

  lemma {:induction false} RefsGrown(s: Slots, t: Slots, n: nat)
    requires SlotsOk(s) && SlotsOk(t) && |s.used| <= n <= |t.used|
    requires forall i | 0 <= i < |s.used| :: s.used[i] == t.used[i] && (s.used[i] ==> s.data[i] == t.data[i])
    requires forall i | |s.used| <= i < |t.used| :: !t.used[i]
    ensures RefsUpTo(t, n) == SlotRefs(s)
    decreases n
  {
    if n > |s.used| { RefsGrown(s, t, n - 1); } else { RefsSame(s, t, n); }
  }

  lemma {:induction false} RefsTaken(s: Slots, i: nat, x: nat, n: nat)
    requires SlotsOk(s) && i < n <= |s.used| && !s.used[i]
    ensures RefsUpTo(Slots(s.data[i := x], s.used[i := true]), n) == RefsUpTo(s, n) + multiset{x}
  {
    var t := Slots(s.data[i := x], s.used[i := true]);
    if n == i + 1 { RefsSame(s, t, i); } else { RefsTaken(s, i, x, n - 1); }
  }

  lemma RefsReleased(s: Slots, i: nat)
    requires SlotValid(s, i)
    ensures SlotRefs(s) == SlotRefs(s.(used := s.used[i := false])) + multiset{s.data[i]}
  {
    var t := s.(used := s.used[i := false]);
    RefsTaken(t, i, s.data[i], |t.used|);
    assert Slots(t.data[i := s.data[i]], t.used[i := true]) == s;
  }

  /** slot_capacity_impl: a larger zeroed table with the old contents in front. */
  function Grow(s: Slots, capacity: nat): (r: Slots)
    requires SlotsOk(s)
    ensures SlotsOk(r) && |r.used| == (if |s.used| >= capacity then |s.used| else capacity)
    ensures forall i: nat | i < |r.used| :: r.used[i] <==> i < |s.used| && s.used[i]
    ensures forall i: nat | i < |s.used| :: r.data[i] == s.data[i]
  {
    if |s.used| >= capacity then s
    else Slots(s.data + seq(capacity - |s.used|, i => 0), s.used + seq(capacity - |s.used|, i => false))
  }

  lemma GrowKeepsHandles(s: Slots, capacity: nat)
    requires SlotsOk(s)
    ensures Handles(Grow(s, capacity)) == Handles(s) && SlotRefs(Grow(s, capacity)) == SlotRefs(s)
  {
    var t := Grow(s, capacity);
    RefsGrown(s, t, |t.used|);
  }

  /** slot_find_impl: the first free slot, or -1 when all are taken. */
  method SlotFind(s: Slots) returns (i: int)
    requires SlotsOk(s)
    ensures i == -1 ==> forall j: nat | j < |s.used| :: s.used[j]
    ensures i != -1 ==> 0 <= i < |s.used| && !s.used[i] && forall j: nat | j < i :: s.used[j]
  {
    for k := 0 to |s.used|
      invariant forall j: nat | j < k :: s.used[j]
    {
      if !s.used[k] { return k; }
    }
    return -1;
  }

  /** slot_alloc_impl, and the store of the object into the new slot: always succeeds, and gives the lowest handle that
      was free; a full table grows by a quarter. */
  method SlotAlloc(s: Slots, x: nat) returns (i: nat, s': Slots)
    requires SlotsOk(s)
    ensures SlotsOk(s') && i !in Handles(s) && Handles(s') == Handles(s)[i := x]
    ensures SlotRefs(s') == SlotRefs(s) + multiset{x}
    ensures forall j: nat | j < i :: j in Handles(s)
    ensures var n := if |s.used| < 16 then 16 else |s.used|; |s'.used| == if i < n then n else n + n / 4
  {
    assert forall t: Slots, n: nat | SlotsOk(t) :: |Grow(t, n).used| == if |t.used| >= n then |t.used| else n;
    hide Grow, RefsUpTo;
    s' := Grow(s, FIRST_CAPACITY);
    GrowKeepsHandles(s, FIRST_CAPACITY);
    var found := SlotFind(s');
    if found < 0 {
      GrowKeepsHandles(s', |s'.used| + |s'.used| / 4);
      ghost var before := s';
      s' := Grow(s', |s'.used| + |s'.used| / 4);
      assert !s'.used[|before.used|];
      found := SlotFind(s');
    }
    i := found;
    SlotTaken(s', i, x);
    s' := Slots(s'.data[i := x], s'.used[i := true]);
  }

  lemma SlotTaken(s: Slots, i: nat, x: nat)
    requires SlotsOk(s) && i < |s.used| && !s.used[i]
    ensures var s' := Slots(s.data[i := x], s.used[i := true]);
            && SlotsOk(s') && i !in Handles(s) && Handles(s') == Handles(s)[i := x]
            && SlotRefs(s') == SlotRefs(s) + multiset{x}
  {
    RefsTaken(s, i, x, |s.used|);
    hide RefsUpTo;
  }

  /** slot_release_impl. */
  function SlotRelease(s: Slots, i: nat): (r: Slots)
    requires SlotValid(s, i)
    ensures SlotsOk(r) && Handles(r) == Handles(s) - {i}
    ensures SlotRefs(s) == SlotRefs(r) + multiset{s.data[i]}
  {
    RefsReleased(s, i);
    s.(used := s.used[i := false])
  }

  // ----- Rings ---------------------------------------------------------------------------------

  /** A ring over a buffer of fixed size: `used` elements from `tail` on, `head` is where the next one goes. */
  datatype RingState<T> = RingState(data: seq<T>, head: nat, tail: nat, used: nat)

  /** Index modulo the capacity, for values below twice the capacity. */
  function Wrap(i: nat, n: nat): nat {
    if i < n then i else i - n
  }

  predicate RingOk<T>(r: RingState<T>) {
    |r.data| > 0 && r.tail < |r.data| && r.used <= |r.data| && r.head == Wrap(r.tail + r.used, |r.data|)
  }

  /** The queued elements, oldest first. */
  ghost function Contents<T>(r: RingState<T>): seq<T> {
    if !RingOk(r) then []
    else if r.tail + r.used <= |r.data| then r.data[r.tail..r.tail + r.used]
    else r.data[r.tail..] + r.data[..r.tail + r.used - |r.data|]
  }

  /** ring_push_impl on a ring that is not full. */
  function Pushed<T>(r: RingState<T>, x: T): RingState<T>
    requires RingOk(r)
  {
    RingState(r.data[r.head := x], (r.head + 1) % |r.data|, r.tail, r.used + 1)
  }

  /** ring_pop_impl on a ring that is not empty. */
  function Popped<T>(r: RingState<T>): RingState<T>
    requires RingOk(r) && r.used > 0
  {
    RingState(r.data, r.head, (r.tail + 1) % |r.data|, r.used - 1)
  }

  lemma NextIndex(i: nat, n: nat)
    requires i < n
    ensures (i + 1) % n == if i + 1 == n then 0 else i + 1
  {
  }

  lemma ContentsSize<T>(r: RingState<T>)
    requires RingOk(r)
    ensures |Contents(r)| == r.used
    ensures r.used > 0 ==> Contents(r)[0] == r.data[r.tail]
  {
  }

  /** A push puts the element behind all others, through the wrap-around. */
  lemma PushAppends<T>(r: RingState<T>, x: T)
    requires RingOk(r) && r.used < |r.data|
    ensures RingOk(Pushed(r, x)) && |Pushed(r, x).data| == |r.data|
    ensures Contents(Pushed(r, x)) == Contents(r) + [x]
  {
    NextIndex(r.head, |r.data|);
    var r' := Pushed(r, x);
    assert r'.tail + r'.used == r.tail + r.used + 1;
  }

  /** A pop takes the oldest element. */
  lemma PopTakes<T>(r: RingState<T>)
    requires RingOk(r) && r.used > 0
    ensures RingOk(Popped(r)) && |Popped(r).data| == |r.data|
    ensures Contents(r) == [r.data[r.tail]] + Contents(Popped(r))
  {
    NextIndex(r.tail, |r.data|);
  }

  datatype QueueOp<T> = PushOp(value: T) | PopOp

  /** What an operation answers: whether it took place and, for a pop, the element. */
  datatype Answer<T> = Refused | Accepted | Taken(value: T)

  /** A bounded queue: what each operation does to the elements and what it answers. */
  ghost predicate Answers<T>(capacity: nat, q: seq<T>, op: QueueOp<T>, a: Answer<T>, q': seq<T>) {
    match op
    case PushOp(x) => if |q| < capacity then a == Accepted && q' == q + [x] else a == Refused && q' == q
    case PopOp => if q != [] then a == Taken(q[0]) && q' == q[1..] else a == Refused && q' == q
  }

  /** The elements that were accepted among the first n operations, in order. */
  ghost function AcceptedOf<T>(ops: seq<QueueOp<T>>, answers: seq<Answer<T>>, n: nat): seq<T>
    requires n <= |ops| && n <= |answers|
  {
    if n == 0 then []
    else
      var more := if answers[n - 1].Accepted? && ops[n - 1].PushOp? then [ops[n - 1].value] else [];
      AcceptedOf(ops, answers, n - 1) + more
  }

  /** The elements that were taken. */
  ghost function TakenOf<T>(answers: seq<Answer<T>>, n: nat): seq<T>
    requires n <= |answers|
  {
    if n == 0 then [] else TakenOf(answers, n - 1) + (if answers[n - 1].Taken? then [answers[n - 1].value] else [])
  }

  ghost predicate QueueRun<T>(capacity: nat, ops: seq<QueueOp<T>>, answers: seq<Answer<T>>, qs: seq<seq<T>>) {
    && |answers| == |ops| && |qs| == |ops| + 1
    && forall i | 0 <= i < |ops| :: Answers(capacity, qs[i], ops[i], answers[i], qs[i + 1])
  }

  /** Over any run, what was there and what was accepted leaves in that order. */
  lemma {:induction false} FirstInFirstOut<T>(capacity: nat, ops: seq<QueueOp<T>>, answers: seq<Answer<T>>,
                                              qs: seq<seq<T>>, n: nat)
    requires QueueRun(capacity, ops, answers, qs) && n <= |ops|
    ensures qs[0] + AcceptedOf(ops, answers, n) == TakenOf(answers, n) + qs[n]
  {
    if n > 0 {
      var m := n - 1;
      FirstInFirstOut(capacity, ops, answers, qs, m);
      assert Answers(capacity, qs[m], ops[m], answers[m], qs[m + 1]);
      var A, T := AcceptedOf(ops, answers, m), TakenOf(answers, m);
      if answers[m].Accepted? {
        assert qs[0] + (A + [ops[m].value]) == (qs[0] + A) + [ops[m].value];
        assert TakenOf(answers, n) == T;
      } else {
        assert AcceptedOf(ops, answers, n) == A;
        assert answers[m].Taken? ==> T + qs[m] == (T + [qs[m][0]]) + qs[n];
      }
    }
  }

  /** The ring in place. */
  class Ring<T> {
    const data: array<T>
    var head: nat
    var tail: nat
    var used: nat

    ghost function Value(): RingState<T>
      reads this, data
    {
      RingState(data[..], head, tail, used)
    }

    ghost predicate Valid()
      reads this, data
    {
      RingOk(Value())
    }

    constructor (capacity: nat, dummy: T)
      requires capacity > 0
      ensures Valid() && Contents(Value()) == [] && data.Length == capacity && fresh(data)
    {
      data := new T[capacity](_ => dummy);
      head, tail, used := 0, 0, 0;
    }

    /** ring_push_impl. */
    method Push(x: T) returns (ok: bool)
      requires Valid()
      modifies this, data
      ensures Valid()
      ensures ok <==> |old(Contents(Value()))| < data.Length
      ensures Contents(Value()) == if ok then old(Contents(Value())) + [x] else old(Contents(Value()))
      ensures ok ==> Value() == Pushed(old(Value()), x)
    {
      ghost var before := Value();
      ContentsSize(before);
      if used == data.Length { return false; }
      PushAppends(before, x);
      hide Contents;
      data[head] := x;
      head := (head + 1) % data.Length;
      used := used + 1;
      assert Value() == Pushed(before, x);
      return true;
    }

    /** ring_pop_impl. */
    method Pop() returns (ok: bool, x: T)
      requires Valid()
      modifies this
      ensures Valid()
      ensures ok <==> old(Contents(Value())) != []
      ensures ok ==> x == old(Contents(Value()))[0] && Contents(Value()) == old(Contents(Value()))[1..]
      ensures ok ==> Value() == Popped(old(Value()))
      ensures !ok ==> Value() == old(Value())
    {
      ghost var before := Value();
      ContentsSize(before);
      if used == 0 { return false, data[0]; }
      PopTakes(before);
      hide Contents;
      x := data[tail];
      tail := (tail + 1) % data.Length;
      used := used - 1;
      assert Value() == Popped(before);
      return true, x;
    }

    /** Any run of pushes and pops is a run of the bounded queue. */
    method Run(ops: seq<QueueOp<T>>) returns (answers: seq<Answer<T>>, ghost qs: seq<seq<T>>)
      requires Valid()
      modifies this, data
      ensures Valid() && QueueRun(data.Length, ops, answers, qs)
      ensures qs[0] == old(Contents(Value())) && qs[|ops|] == Contents(Value())
      ensures old(Contents(Value())) + AcceptedOf(ops, answers, |ops|) == TakenOf(answers, |ops|) + Contents(Value())
    {
      answers, qs := [], [Contents(Value())];
      hide Contents, RingOk;
      for i := 0 to |ops|
        invariant Valid() && |answers| == i && |qs| == i + 1 && qs[0] == old(Contents(Value()))
          && qs[i] == Contents(Value())
        invariant forall j | 0 <= j < i :: Answers(data.Length, qs[j], ops[j], answers[j], qs[j + 1])
      {
        var a: Answer<T>;
        match ops[i] {
          case PushOp(x) =>
            var ok := Push(x);
            a := if ok then Accepted else Refused;
          case PopOp =>
            var ok, x := Pop();
            a := if ok then Taken(x) else Refused;
        }
        answers, qs := answers + [a], qs + [Contents(Value())];
      }
      FirstInFirstOut(data.Length, ops, answers, qs, |ops|);
    }
  }
}
