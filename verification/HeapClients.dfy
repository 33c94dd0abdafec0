/** The heap allocator as its clients see it: every byte they store stays until they overwrite it, release the block or
    shrink it away, over any run of calls. */
module HeapClients {
  import opened HeapLayout
  import opened HeapAllocator

  /** For each live pointer, the bytes stored there. */
  type View = map<nat, map<nat, int>>

  datatype Call =
    | Acquire(size: nat, grant: nat)
    | Release(ptr: nat)
    | Resize(ptr: nat, size: nat, grant: nat)
    | Store(ptr: nat, offset: nat, value: int)

  /** The known bytes of one block read back as they were stored. */
  ghost predicate HoldsAt(h: Heap, ptr: nat, bytes: map<nat, int>) {
    && LivePtr(h, ptr)
    && forall i | i in bytes ::
      i < h.minors[ptr - MINOR_HEADER].reqSize && i < h.minors[ptr - MINOR_HEADER].size
      && ByteAt(h.mem, ptr, i) == bytes[i]
  }

  /** The view lists exactly the live blocks, and each reads back. */
  ghost predicate Holds(h: Heap, view: View) {
    && (forall ptr | ptr in view :: HoldsAt(h, ptr, view[ptr]))
    && (forall ptr: nat | LivePtr(h, ptr) :: ptr in view)
  }

  /** The bytes that a change of size keeps. */
  function Cut(bytes: map<nat, int>, size: nat): map<nat, int> {
    map i | i in bytes && i < size :: bytes[i]
  }

  function Put(bytes: map<nat, int>, i: nat, value: int): map<nat, int> {
    map j: nat | j in bytes.Keys + {i} :: if j == i then value else bytes[j]
  }

  lemma KeptHolds(h: Heap, h': Heap, ptr: nat, bytes: map<nat, int>)
    requires HoldsAt(h, ptr, bytes) && Kept(h, h', ptr - MINOR_HEADER)
    ensures HoldsAt(h', ptr, bytes)
  {
    forall i | i in bytes ensures ByteAt(h'.mem, ptr, i) == bytes[i] {
      assert ByteAt(h.mem, ptr, i) == bytes[i];
      assert h.mem(ptr + i) == h'.mem(ptr + i);
    }
  }

  lemma AfterAcquire(h: Heap, h': Heap, view: View, ptr: nat, size: nat)
    requires Holds(h, view) && ptr >= MINOR_HEADER && Allocated(h, h', ptr - MINOR_HEADER, size)
    ensures ptr !in view && Holds(h', view[ptr := map[]])
  {
    hide Kept;
    forall q | q in view ensures q != ptr && HoldsAt(h', q, view[q]) {
      assert HoldsAt(h, q, view[q]);
      KeptHolds(h, h', q, view[q]);
    }
  }

  lemma AfterRelease(h: Heap, h': Heap, view: View, ptr: nat)
    requires Holds(h, view) && LivePtr(h, ptr) && Released(h, h', ptr - MINOR_HEADER)
    ensures Holds(h', view - {ptr})
  {
    hide Kept;
    forall q | q in view - {ptr} ensures HoldsAt(h', q, view[q]) {
      assert HoldsAt(h, q, view[q]);
      KeptHolds(h, h', q, view[q]);
    }
  }

  lemma AfterResize(h: Heap, h': Heap, view: View, ptr: nat, r: nat, size: nat)
    requires Holds(h, view) && LivePtr(h, ptr) && Resized(h, h', ptr, r, size)
    ensures ptr in view && (r == ptr || r !in view) && Holds(h', (view - {ptr})[r := Cut(view[ptr], size)])
  {
    hide Kept, SameBytes, Cut;
    assert HoldsAt(h, ptr, view[ptr]);
    assert r in view ==> HoldsAt(h, r, view[r]);
    forall q | q in view - {ptr} ensures HoldsAt(h', q, view[q]) {
      assert HoldsAt(h, q, view[q]);
      KeptHolds(h, h', q, view[q]);
    }
    CutHolds(h, h', ptr, r, view[ptr], size);
  }

  lemma CutHolds(h: Heap, h': Heap, ptr: nat, r: nat, bytes: map<nat, int>, size: nat)
    requires HoldsAt(h, ptr, bytes) && Resized(h, h', ptr, r, size)
    ensures HoldsAt(h', r, Cut(bytes, size))
  {
    hide Untouched;
    forall i | i in bytes && i < size ensures ByteAt(h'.mem, r, i) == bytes[i] {
      assert ByteAt(h.mem, ptr, i) == bytes[i];
    }
  }

  lemma AfterStore(h: Heap, h': Heap, view: View, ptr: nat, i: nat, value: int)
    requires Holds(h, view) && ptr in view && LivePtr(h, ptr) && i < h.minors[ptr - MINOR_HEADER].reqSize
      && i < h.minors[ptr - MINOR_HEADER].size
    requires h'.minors == h.minors && h'.mem(ptr + i) == value
      && (forall a: nat | a != ptr + i :: h'.mem(a) == h.mem(a))
    requires Untouched(h, h', h.minors.Keys - {ptr - MINOR_HEADER})
    ensures Holds(h', view[ptr := Put(view[ptr], i, value)])
  {
    forall q | q in view && q != ptr ensures HoldsAt(h', q, view[q]) {
      assert HoldsAt(h, q, view[q]);
      KeptHolds(h, h', q, view[q]);
    }
    assert HoldsAt(h, ptr, view[ptr]);
    forall j | j in view[ptr] && j != i ensures ByteAt(h'.mem, ptr, j) == view[ptr][j] {
      assert ByteAt(h.mem, ptr, j) == view[ptr][j];
      assert h'.mem(ptr + j) == h.mem(ptr + j);
    }
  }

  /** The system has memory for the call, should it need any. */
  predicate Granted(majors: Majors, nodeSize: nat, size: nat, grant: nat) {
    GrantOk(majors, grant, MajorBytes(PayloadSize(size), nodeSize))
  }

  /** How many bytes of its block a client may use. */
  function Room(minors: Minors, ptr: nat): nat {
    if ptr < MINOR_HEADER || ptr - MINOR_HEADER !in minors then 0
    else
      var m := minors[ptr - MINOR_HEADER];
      if m.reqSize < m.size then m.reqSize else m.size
  }

  /** In terms of addresses: the system offers whole pages apart from all the blocks it has given. */
  ghost predicate Available(majors: Majors, nodeSize: nat, size: nat, grant: nat) {
    var bytes := MajorBytes(PayloadSize(size), nodeSize);
    && grant > 0 && grant % 4096 == 0
    && forall m | m in majors :: grant + bytes <= m || m + majors[m].size <= grant
  }

  /** ptr points to a live block with room for `size` bytes. */
  ghost predicate Roomy(h: Heap, ptr: nat, size: nat) {
    && ptr >= 64 && ptr - 64 in h.minors
    && h.minors[ptr - 64].reqSize >= size && h.minors[ptr - 64].size >= size
  }

  /** A new pointer to a block of that size, with nothing stored yet. */
  ghost predicate Fresh(h': Heap, view: View, view': View, size: nat) {
    exists p: nat :: p !in view && view' == view[p := map[]] && Roomy(h', p, size)
  }

  /** The block of ptr is now at the same or a new pointer and kept its bytes below the new size. */
  ghost predicate Carried(h': Heap, view: View, view': View, ptr: nat, size: nat) {
    ptr in view && exists r: nat ::
      (r == ptr || r !in view) && view' == (view - {ptr})[r := Cut(view[ptr], PayloadSize(size))] && Roomy(h', r, size)
  }

  /** What a call does to the client's view. Calls that the code answers with a panic do nothing: a dead pointer, or
      memory that the system does not have. */
  ghost predicate Stepped(h: Heap, nodeSize: nat, call: Call, h': Heap, view: View, view': View) {
    match call
    case Acquire(size, grant) =>
      if Available(h.majors, nodeSize, size, grant) then Fresh(h', view, view', size) else view' == view
    case Release(ptr) => view' == view - {ptr}
    case Resize(ptr, size, grant) =>
      if size == 0 then view' == view - {ptr}
      else if !Available(h.majors, nodeSize, size, grant) then view' == view
      else if ptr == 0 then Fresh(h', view, view', size)
      else if ptr in view then Carried(h', view, view', ptr, size)
      else view' == view
    case Store(ptr, i, value) =>
      if ptr in view && Roomy(h, ptr, i + 1) then view' == view[ptr := Put(view[ptr], i, value)] else view' == view
  }

  lemma GrantedIsAvailable(majors: Majors, nodeSize: nat, size: nat, grant: nat)
    ensures Granted(majors, nodeSize, size, grant) <==> Available(majors, nodeSize, size, grant)
  {
    hide MajorBytes, PayloadSize;
  }

  lemma RoomIsRoomy(h: Heap, ptr: nat, i: nat)
    ensures i < Room(h.minors, ptr) <==> Roomy(h, ptr, i + 1)
  {
  }

  lemma RoomInside(h: Heap, ptr: nat, i: nat)
    requires LivePtr(h, ptr) && i < Room(h.minors, ptr)
    ensures i < h.minors[ptr - MINOR_HEADER].reqSize && i < h.minors[ptr - MINOR_HEADER].size
  {
  }

  lemma AcquiredIsRoomy(h: Heap, h': Heap, ptr: nat, size: nat)
    requires ptr >= MINOR_HEADER && Allocated(h, h', ptr - MINOR_HEADER, PayloadSize(size))
    ensures Roomy(h', ptr, size)
  {
    hide Untouched;
  }

  lemma ResizedIsRoomy(h: Heap, h': Heap, ptr: nat, r: nat, size: nat)
    requires LivePtr(h, ptr) && Resized(h, h', ptr, r, PayloadSize(size))
    ensures Roomy(h', r, size)
  {
    hide Untouched;
  }

  /** One call, and what it does to the client's view. */
  method Perform(heap: HeapAlloc, call: Call, view: View) returns (view': View)
    requires heap.Valid() && Holds(heap.State(), view)
    modifies heap
    ensures heap.Valid() && Holds(heap.State(), view')
    ensures Stepped(old(heap.State()), heap.nodeSize, call, heap.State(), view, view')
  {
    hide HeapValid, Allocated, Released, Resized, Holds, NoFit, GrantOk, PayloadSize, MajorBytes, Untouched, Cut,
      Available,
      Roomy, Room;
    view' := view;
    ghost var h := heap.State();
    LiveIsViewed(h, view);
    ValidIsConsistent(h);
    NullNotLive(h);
    match call
    case Acquire(size, grant) =>
      GrantedIsAvailable(h.majors, heap.nodeSize, size, grant);
      if Granted(heap.majors, heap.nodeSize, size, grant) {
        var p, _ := heap.Acquire(size, grant);
        AfterAcquire(h, heap.State(), view, p, PayloadSize(size));
        AcquiredIsRoomy(h, heap.State(), p, size);
        view' := view[p := map[]];
      }
    case Release(ptr) =>
      var ok := heap.Release(ptr);
      view' := AfterFree(h, heap, view, ptr);
    case Resize(ptr, size, grant) =>
      GrantedIsAvailable(h.majors, heap.nodeSize, size, grant);
      if size == 0 {
        var _ := heap.Resize(ptr, 0, grant);
        view' := AfterFree(h, heap, view, ptr);
      } else if Granted(heap.majors, heap.nodeSize, size, grant) {
        var r := heap.Resize(ptr, size, grant);
        if ptr == NULL {
          AfterAcquire(h, heap.State(), view, r, PayloadSize(size));
          AcquiredIsRoomy(h, heap.State(), r, size);
          view' := view[r := map[]];
        } else if ptr in view {
          AfterResize(h, heap.State(), view, ptr, r, PayloadSize(size));
          ResizedIsRoomy(h, heap.State(), ptr, r, size);
          view' := (view - {ptr})[r := Cut(view[ptr], PayloadSize(size))];
        }
      }
    case Store(ptr, i, value) =>
      RoomIsRoomy(h, ptr, i);
      if ptr in view && i < Room(heap.minors, ptr) {
        RoomInside(h, ptr, i);
        heap.Store(ptr, i, value);
        AfterStore(h, heap.State(), view, ptr, i, value);
        view' := view[ptr := Put(view[ptr], i, value)];
      }
  }

  /** The view after freeing ptr, live or not. */
  method AfterFree(ghost h: Heap, heap: HeapAlloc, view: View, ptr: nat) returns (view': View)
    requires Holds(h, view) && (LivePtr(h, ptr) ==> Released(h, heap.State(), ptr - MINOR_HEADER))
    requires !LivePtr(h, ptr) ==> heap.State() == h
    ensures view' == view - {ptr} && Holds(heap.State(), view')
  {
    view' := view - {ptr};
    LiveIsViewed(h, view);
    if LivePtr(h, ptr) {
      AfterRelease(h, heap.State(), view, ptr);
    } else {
      assert view' == view;
    }
  }

  lemma ValidIsConsistent(h: Heap)
    requires HeapValid(h)
    ensures Consistent(h)
  {
  }

  lemma LiveIsViewed(h: Heap, view: View)
    requires Holds(h, view)
    ensures forall ptr: nat {:trigger LivePtr(h, ptr)} {:trigger ptr in view} :: ptr in view <==> LivePtr(h, ptr)
  {
    forall ptr: nat ensures ptr in view <==> LivePtr(h, ptr) {
      assert ptr in view ==> HoldsAt(h, ptr, view[ptr]);
    }
  }

  /** Blocks and the headers before them never overlap. */
  ghost predicate AllApart(h: Heap, view: View) {
    forall p, q {:trigger LivePtr(h, p), LivePtr(h, q)} | p in view && q in view && p < q ::
      LivePtr(h, p) && LivePtr(h, q) && p + h.minors[p - MINOR_HEADER].size + MINOR_HEADER <= q
  }

  lemma ViewApart(h: Heap, view: View)
    requires Consistent(h) && Holds(h, view)
    ensures AllApart(h, view)
  {
    hide Consistent, Holds;
    forall p, q | p in view && q in view && p < q ensures LivePtr(h, p) && LivePtr(h, q)
      && p + h.minors[p - MINOR_HEADER].size + MINOR_HEADER <= q {
      PairApart(h, view, p, q);
    }
  }

  lemma PairApart(h: Heap, view: View, p: nat, q: nat)
    requires Consistent(h) && Holds(h, view) && p in view && q in view && p < q
    ensures LivePtr(h, p) && LivePtr(h, q) && p + h.minors[p - MINOR_HEADER].size + MINOR_HEADER <= q
  {
    hide Consistent;
    assert HoldsAt(h, p, view[p]) && HoldsAt(h, q, view[q]);
    hide Holds, HoldsAt;
    BlocksDisjoint(h, p - MINOR_HEADER, q - MINOR_HEADER);
  }

  lemma EmptyHolds(h: Heap)
    requires h.minors == map[]
    ensures Holds(h, map[])
  {
  }

  /** A run: heaps and views between the calls, each pair connected by its call. */
  ghost predicate RunOk(nodeSize: nat, calls: seq<Call>, heaps: seq<Heap>, views: seq<View>) {
    && |heaps| == |views| == |calls| + 1
    && (forall i | 0 <= i < |views| :: Holds(heaps[i], views[i]))
    && (forall i | 0 <= i < |calls| :: Stepped(heaps[i], nodeSize, calls[i], heaps[i + 1], views[i], views[i + 1]))
  }

  /** Any run of calls on a fresh heap. */
  method Run(heap: HeapAlloc, calls: seq<Call>) returns (view: View, ghost heaps: seq<Heap>, ghost views: seq<View>)
    requires heap.Valid() && heap.minors == map[]
    modifies heap
    ensures heap.Valid() && AllApart(heap.State(), view)
    ensures RunOk(heap.nodeSize, calls, heaps, views)
    ensures heaps[0] == old(heap.State()) && views[0] == map[] && heaps[|calls|] == heap.State()
      && views[|calls|] == view
  {
    hide HeapValid, Holds, Stepped, AllApart, Consistent;
    view := map[];
    EmptyHolds(heap.State());
    heaps, views := [heap.State()], [view];
    for i := 0 to |calls|
      invariant heap.Valid() && |heaps| == |views| == i + 1 && heaps[i] == heap.State() && views[i] == view
      invariant heaps[0] == old(heap.State()) && views[0] == map[]
      invariant forall j | 0 <= j <= i :: Holds(heaps[j], views[j])
      invariant forall j | 0 <= j < i ::
        Stepped(heaps[j], heap.nodeSize, calls[j], heaps[j + 1], views[j], views[j + 1])
    {
      view := Perform(heap, calls[i], view);
      heaps, views := heaps + [heap.State()], views + [view];
    }
    ValidIsConsistent(heap.State());
    ViewApart(heap.State(), view);
  }

  /** A call that may change the byte at `offset` behind ptr, or take it away. */
  ghost predicate Disturbs(call: Call, ptr: nat, offset: nat) {
    match call
    case Acquire(_, _) => false
    case Release(p) => p == ptr
    case Resize(p, _, _) => p == ptr
    case Store(p, i, _) => p == ptr && i == offset
  }

  /** Over any run: a byte once stored is in memory until its client overwrites it, or releases or resizes the block. */
  lemma {:induction false} StoredReadsBack(nodeSize: nat, calls: seq<Call>, heaps: seq<Heap>, views: seq<View>, i: nat,
                                           n: nat)
    requires RunOk(nodeSize, calls, heaps, views) && i < n <= |calls| && calls[i].Store?
    requires calls[i].ptr in views[i] && Roomy(heaps[i], calls[i].ptr, calls[i].offset + 1)
    requires forall j | i < j < n :: !Disturbs(calls[j], calls[i].ptr, calls[i].offset)
    ensures var ptr, offset := calls[i].ptr, calls[i].offset;
            && ptr in views[n] && offset in views[n][ptr] && views[n][ptr][offset] == calls[i].value
            && LivePtr(heaps[n], ptr) && ByteAt(heaps[n].mem, ptr, offset) == calls[i].value
  {
    var ptr, offset, m := calls[i].ptr, calls[i].offset, n - 1;
    assert Stepped(heaps[m], nodeSize, calls[m], heaps[m + 1], views[m], views[m + 1]);
    if i < m {
      StoredReadsBack(nodeSize, calls, heaps, views, i, m);
      Undisturbed(heaps[m], nodeSize, calls[m], heaps[n], views[m], views[n], ptr, offset);
    }
    assert HoldsAt(heaps[n], ptr, views[n][ptr]);
  }

  lemma Undisturbed(h: Heap, nodeSize: nat, call: Call, h': Heap, view: View, view': View, ptr: nat, offset: nat)
    requires Stepped(h, nodeSize, call, h', view, view') && !Disturbs(call, ptr, offset) && ptr in view
      && offset in view[ptr]
    ensures ptr in view' && offset in view'[ptr] && view'[ptr][offset] == view[ptr][offset]
  {
    hide Available, Roomy;
  }

  /** A resize keeps every known byte below the new size, wherever the block went. */
  lemma ResizeCarries(h: Heap, nodeSize: nat, call: Call, h': Heap, view: View, view': View)
    requires Stepped(h, nodeSize, call, h', view, view') && call.Resize? && call.ptr in view && call.ptr != NULL
      && call.size > 0
    requires Available(h.majors, nodeSize, call.size, call.grant)
    ensures exists r: nat :: r in view' && Roomy(h', r, call.size) && forall i | i in view[call.ptr] && i < call.size ::
      i in view'[r] && view'[r][i] == view[call.ptr][i]
  {
    hide Available, Roomy;
    var r: nat :| (r == call.ptr || r !in view) && Roomy(h', r, call.size)
      && view' == (view - {call.ptr})[r := Cut(view[call.ptr], PayloadSize(call.size))];
    assert r in view';
  }
}
