/** The physical page allocator (kernel/pmm.c): a bitmap, two search hints and a byte counter. */
module PageFrames {
  import opened Bitmap

  const PAGE: nat := 4096
  const MAX: nat := 0xffff_ffff_ffff_ffff // (size_t)-1

  datatype Result = Ok(range: Range) | OutOfMemory | BadAddress

  /** addr2pages, for a range above the usable base. */
  function Pages(base: nat, r: Range): Range
    requires base <= r.base
  {
    Range((r.base - base) / PAGE, r.size / PAGE)
  }

  /** pages2addr. */
  function Addresses(base: nat, r: Range): (a: Range)
    ensures base <= a.base && Pages(base, a) == r
  {
    Range(r.base * PAGE + base, r.size * PAGE)
  }

  predicate Aligned(r: Range) {
    r.base % PAGE == 0 && r.size % PAGE == 0
  }

  predicate Apart(a: Range, b: Range) {
    a.base + a.size <= b.base || b.base + b.size <= a.base
  }

  /** The ranges handed out are marked used and do not overlap. */
  ghost predicate LiveOk(flags: Flags, live: set<Range>) {
    && (forall r | r in live :: r.size > 0 && All(flags, r, true))
    && (forall a, b | a in live && b in live && a != b :: Apart(a, b))
  }

  /** A free run touches nothing that was handed out. */
  lemma FreeIsApart(flags: Flags, live: set<Range>, r: Range)
    requires LiveOk(flags, live) && r.size > 0 && All(flags, r, false)
    ensures r !in live && forall a | a in live :: Apart(a, r)
  {
    forall a | a in live ensures a != r && Apart(a, r) {
      var i := if a.base <= r.base then r.base else a.base;
      assert a.base <= i < a.base + a.size ==> flags[i];
      assert r.base <= i < r.base + r.size ==> !flags[i];
    }
  }

  lemma HandOut(flags: Flags, live: set<Range>, r: Range)
    requires LiveOk(flags, live) && r.size > 0 && All(flags, r, false)
    ensures LiveOk(Filled(flags, r, true), live + {r})
  {
    FreeIsApart(flags, live, r);
  }

  lemma MarkUsed(flags: Flags, live: set<Range>, r: Range)
    requires LiveOk(flags, live)
    ensures LiveOk(Filled(flags, r, true), live)
  {
  }

  /** Giving back a live range, or one that touches none, leaves the others marked used. */
  lemma TakeBack(flags: Flags, live: set<Range>, r: Range)
    requires LiveOk(flags, live) && forall a | a in live && a != r :: Apart(a, r)
    ensures LiveOk(Filled(flags, r, false), live - {r})
  {
    forall a | a in live - {r} ensures a.size > 0 && All(Filled(flags, r, false), a, true) {
      assert a in live && Apart(a, r);
    }
  }

  /** A run long enough for the request, where the search direction looks. */
  ghost predicate Fits(flags: Flags, pages: nat, upper: bool, b: nat) {
    Free(flags, b, pages) && (upper ==> b >= 1)
  }

  /** b is where the search from `start` ends: the lowest candidate upward, the highest one downward. */
  ghost predicate Best(flags: Flags, start: nat, pages: nat, upper: bool, b: nat) {
    && Candidate(flags, start, pages, upper, b)
    && forall c: nat | Candidate(flags, start, pages, upper, c) :: if upper then c <= b else b <= c
  }

  /** The first search goes from the hint; only if it finds nothing the second goes from the end. */
  ghost predicate Sought(flags: Flags, hint: nat, pages: nat, upper: bool, b: nat) {
    || Best(flags, hint, pages, upper, b)
    || ((forall c: nat :: !Candidate(flags, hint, pages, upper, c))
       && Best(flags, if upper then MAX else 0, pages, upper, b))
  }

  datatype Step = Alloc(size: nat, upper: bool) | GiveBack(index: nat) | Reserve(range: Range)

  class Pmm {
    const bits: Bits
    const base: nat
    var bestUpper: nat
    var bestLower: nat
    var used: int
    ghost var live: set<Range> // page ranges handed out and not given back

    ghost predicate Valid()
      reads this, bits.data
    {
      8 * bits.data.Length < MAX && base % PAGE == 0 && LiveOk(bits.Flags(), live)
    }

    /** Memory that is used but not accounted for, in bytes. */
    ghost function Slack(): int
      reads this, bits.data
    {
      used - 4096 * Population(bits.Flags())
    }

    constructor (base: nat, size: nat)
      requires base % PAGE == 0 && 8 * size < MAX
      ensures Valid() && live == {} && fresh(bits.data) && forall i | 0 <= i < |bits.Flags()| :: bits.Flags()[i]
    {
      this.base := base;
      bits := new Bits(size, true);
      bestUpper, bestLower, used := 0, MAX, 0;
      live := {};
    }

    /** pmm_alloc: it fails only if no run fits, whatever the hints say. */
    method AllocPages(size: nat, upper: bool) returns (r: Result)
      requires Valid() && size % PAGE == 0
      modifies this, bits.data
      ensures Valid() && Slack() == old(Slack())
      ensures r.Ok? || r.OutOfMemory?
      ensures r.Ok? <==> size > 0 && exists b: nat :: Fits(old(bits.Flags()), size / PAGE, upper, b)
      ensures r.OutOfMemory? ==> bits.Flags() == old(bits.Flags()) && live == old(live) && used == old(used)
      ensures r.Ok? ==>
        && r.range.size == size && base <= r.range.base && Aligned(r.range)
        && var p := Pages(base, r.range);
           && Fits(old(bits.Flags()), size / PAGE, upper, p.base)
           && bits.Flags() == Filled(old(bits.Flags()), p, true) && live == old(live) + {p} && used == old(used) + size
           && (forall a | a in old(live) :: Apart(a, p))
           && Sought(old(bits.Flags()), if upper then old(bestUpper) else old(bestLower), size / PAGE, upper, p.base)
           && bestUpper == (if upper then p.base else old(bestUpper))
           && bestLower == (if upper then old(bestLower) else p.base + p.size)
    {
      hide LiveOk, Population, Filled, Bits.Flags;
      var count := size / PAGE;
      var p := Search(count, upper);
      if p.size == 0 {
        return OutOfMemory;
      }
      if upper {
        bestUpper := p.base;
      } else {
        bestLower := p.base + p.size;
      }
      ghost var f := bits.Flags();
      assert Fits(f, count, upper, p.base);
      FreeIsApart(f, live, p);
      HandOut(f, live, p);
      var n := bits.SetRange(p, true);
      var range := Addresses(base, p);
      used := used + range.size;
      live := live + {p};
      r := Ok(range);
    }

    /** The two searches of pmm_alloc: from the hint, then from the end. */
    method Search(pages: nat, upper: bool) returns (p: Range)
      requires 8 * bits.data.Length < MAX
      modifies `bestUpper, `bestLower
      ensures p.size == 0 || (p.size == pages && Fits(bits.Flags(), pages, upper, p.base))
      ensures p.size == 0 ==> pages == 0 || forall b: nat :: !Fits(bits.Flags(), pages, upper, b)
      ensures p.size > 0 ==>
        Sought(bits.Flags(), if upper then old(bestUpper) else old(bestLower), pages, upper, p.base)
      ensures if upper then bestLower == old(bestLower) else bestUpper == old(bestUpper)
    {
      hide Bits.Flags;
      p := bits.FindFree(if upper then bestUpper else bestLower, pages, upper);
      if p.size == 0 {
        if upper {
          bestUpper := MAX;
        } else {
          bestLower := 0;
        }
        p := bits.FindFree(if upper then MAX else 0, pages, upper);
        forall b: nat | Fits(bits.Flags(), pages, upper, b)
          ensures Candidate(bits.Flags(), if upper then MAX else 0, pages, upper, b)
        {
        }
      }
    }

    /** pmm_used. */
    method Used(range: Range) returns (r: Result)
      requires Valid() && Aligned(range) && base <= range.base
      requires Pages(base, range).base + Pages(base, range).size <= 8 * bits.data.Length
      modifies this, bits.data
      ensures Valid() && Slack() == old(Slack()) && live == old(live) && r == Ok(range)
      ensures bits.Flags() == Filled(old(bits.Flags()), Pages(base, range), true)
    {
      hide LiveOk, Population, Filled, Bits.Flags;
      MarkUsed(bits.Flags(), live, Pages(base, range));
      var count := bits.SetRange(Pages(base, range), true);
      used := used + count * PAGE;
      return Ok(range);
    }

    /** pmm_unused, of a range that was handed out or one that touches none of those. */
    method Unused(range: Range) returns (r: Result)
      requires Valid() && Aligned(range) && (range.base != 0 ==> base <= range.base)
      requires range.base != 0 ==> Pages(base, range).base + Pages(base, range).size <= 8 * bits.data.Length
      requires range.base != 0 ==> forall a | a in live && a != Pages(base, range) :: Apart(a, Pages(base, range))
      modifies this, bits.data
      ensures Valid() && Slack() == old(Slack())
      ensures r == if range.base == 0 then BadAddress else Ok(range)
      ensures r == BadAddress ==> bits.Flags() == old(bits.Flags()) && live == old(live) && used == old(used)
      ensures r.Ok? ==>
        && bits.Flags() == Filled(old(bits.Flags()), Pages(base, range), false)
        && live == old(live) - {Pages(base, range)}
        && var p := Pages(base, range);
           && bestUpper == (if old(bestUpper) < p.base + p.size then p.base + p.size - 1 else old(bestUpper))
           && bestLower == (if old(bestLower) > p.base then p.base else old(bestLower))
    {
      hide LiveOk, Population, Filled, Bits.Flags;
      if range.base == 0 {
        return BadAddress;
      }
      var p := Pages(base, range);
      TakeBack(bits.Flags(), live, p);
      var count := bits.SetRange(p, false);
      used := used - count * PAGE;
      live := live - {p};
      if bestUpper < p.base + p.size {
        bestUpper := p.base + p.size - 1;
      }
      if bestLower > p.base {
        bestLower := p.base;
      }
      return Ok(range);
    }

    /** One call of a client that holds `given`. */
    method Perform(step: Step, given: seq<Range>) returns (given': seq<Range>)
      requires Valid() && GivenOk(base, live, given)
      modifies this, bits.data
      ensures Valid() && Slack() == old(Slack()) && GivenOk(base, live, given')
      ensures Stepped(base, Snapshot(old(bits.Flags()), given), step, Snapshot(bits.Flags(), given'))
    {
      hide LiveOk, Population, Filled, Bits.Flags, GivenOk;
      given' := given;
      match step
      case Alloc(size, upper) =>
        if size % PAGE == 0 {
          ghost var before := live;
          var r := AllocPages(size, upper);
          if r.Ok? {
            GivenMore(base, bits.Flags(), before, live, given, r.range);
            given' := given + [r.range];
            Scaled(base, r.range);
          }
        }
      case GiveBack(k) =>
        if k < |given| {
          GivenIsLive(base, bits.Flags(), live, given, k);
          if given[k].base != 0 {
            var _ := Unused(given[k]);
            given' := given[..k] + given[k + 1..];
          }
        }
      case Reserve(range) =>
        if Reservable(base, 8 * bits.data.Length, range) {
          var _ := Used(range);
        }
    }

    /** Any run in which callers give back only what they were given: the log says what each call did, ranges in use
        never overlap, and the byte counter moves by a page for each bit. */
    method Run(steps: seq<Step>) returns (given: seq<Range>, ghost log: seq<Snapshot>)
      requires Valid() && live == {}
      modifies this, bits.data
      ensures Valid() && Slack() == old(Slack()) && GivenOk(base, live, given)
      ensures forall i, j | 0 <= i < j < |given| :: Apart(given[i], given[j])
      ensures |log| == |steps| + 1 && log[0] == Snapshot(old(bits.Flags()), [])
        && log[|steps|] == Snapshot(bits.Flags(), given)
      ensures forall i | 0 <= i < |steps| :: Stepped(base, log[i], steps[i], log[i + 1])
    {
      given := [];
      assert GivenOk(base, live, given);
      hide LiveOk, Population, Bits.Flags, GivenOk, Stepped;
      log := [Snapshot(bits.Flags(), given)];
      for i := 0 to |steps|
        invariant Valid() && Slack() == old(Slack()) && GivenOk(base, live, given)
        invariant |log| == i + 1 && log[0] == Snapshot(old(bits.Flags()), []) && log[i] == Snapshot(bits.Flags(), given)
        invariant forall j | 0 <= j < i :: Stepped(base, log[j], steps[j], log[j + 1])
      {
        given := Perform(steps[i], given);
        log := log + [Snapshot(bits.Flags(), given)];
      }
      GivenApart(base, bits.Flags(), live, given);
    }
  }

  predicate Reservable(base: nat, len: nat, r: Range) {
    Aligned(r) && base <= r.base && Pages(base, r).base + Pages(base, r).size <= len
  }

  /** The bitmap and what the callers hold. */
  datatype Snapshot = Snapshot(flags: Flags, given: seq<Range>)

  /** What a call does to both: an allocation hands out a free run if there is one, giving back frees exactly that
      range. */
  ghost predicate Stepped(base: nat, s: Snapshot, step: Step, s': Snapshot) {
    match step
    case Alloc(size, upper) =>
      if size % 4096 == 0 && size > 0 && exists b: nat :: Fits(s.flags, size / 4096, upper, b) then
        exists b: nat ::
          && Fits(s.flags, size / 4096, upper, b)
          && s' == Snapshot(Filled(s.flags, Range(b, size / 4096), true), s.given + [Range(base + 4096 * b, size)])
      else s' == s
    case GiveBack(k) =>
      if k < |s.given| && s.given[k].base != 0 then
        && base <= s.given[k].base
        && var p := Range((s.given[k].base - base) / 4096, s.given[k].size / 4096);
           s' == Snapshot(Filled(s.flags, p, false), s.given[..k] + s.given[k + 1..])
      else s' == s
    case Reserve(r) =>
      if r.base % 4096 == 0 && r.size % 4096 == 0 && base <= r.base
         && (r.base - base) / 4096 + r.size / 4096 <= |s.flags|
      then s' == s.(flags := Filled(s.flags, Range((r.base - base) / 4096, r.size / 4096), true))
      else s' == s
  }

  /** What the callers hold is what is live, each range once. */
  ghost predicate GivenOk(base: nat, live: set<Range>, given: seq<Range>) {
    && (forall i | 0 <= i < |given| :: base <= given[i].base && Aligned(given[i]) && Pages(base, given[i]) in live)
    && (forall i, j | 0 <= i < j < |given| :: Pages(base, given[i]) != Pages(base, given[j]))
    && (forall p | p in live :: exists i :: 0 <= i < |given| && Pages(base, given[i]) == p)
  }

  lemma GivenMore(base: nat, flags: Flags, before: set<Range>, live: set<Range>, given: seq<Range>, r: Range)
    requires GivenOk(base, before, given) && LiveOk(flags, live) && base <= r.base && Aligned(r)
    requires live == before + {Pages(base, r)} && forall a | a in before :: Apart(a, Pages(base, r))
    ensures GivenOk(base, live, given + [r])
  {
    hide Pages;
    var all := given + [r];
    forall p | p in live ensures exists i :: 0 <= i < |all| && Pages(base, all[i]) == p {
      if p in before {
        var i :| 0 <= i < |given| && Pages(base, given[i]) == p;
        assert all[i] == given[i];
      } else {
        assert all[|given|] == r;
      }
    }
  }

  lemma Removed(given: seq<Range>, k: nat)
    requires k < |given|
    ensures var rest := given[..k] + given[k + 1..];
            |rest| == |given| - 1 && forall i | 0 <= i < |rest| :: rest[i] == given[if i < k then i else i + 1]
  {
  }

  lemma GivenLess(base: nat, live: set<Range>, given: seq<Range>, k: nat)
    requires GivenOk(base, live, given) && k < |given|
    ensures GivenOk(base, live - {Pages(base, given[k])}, given[..k] + given[k + 1..])
  {
    hide Pages;
    var p, rest := Pages(base, given[k]), given[..k] + given[k + 1..];
    Removed(given, k);
    forall q | q in live - {p} ensures exists i :: 0 <= i < |rest| && Pages(base, rest[i]) == q {
      var j :| 0 <= j < |given| && Pages(base, given[j]) == q;
      assert rest[if j < k then j else j - 1] == given[j];
    }
  }

  lemma GivenIsLive(base: nat, flags: Flags, live: set<Range>, given: seq<Range>, k: nat)
    requires GivenOk(base, live, given) && LiveOk(flags, live) && k < |given|
    ensures base <= given[k].base && Aligned(given[k])
    ensures var p := Pages(base, given[k]);
            && p.base + p.size <= |flags| && (forall a | a in live && a != p :: Apart(a, p))
            && GivenOk(base, live - {p}, given[..k] + given[k + 1..])
  {
    hide Pages;
    GivenLess(base, live, given, k);
  }

  /** As byte ranges too they do not overlap. */
  lemma GivenApart(base: nat, flags: Flags, live: set<Range>, given: seq<Range>)
    requires GivenOk(base, live, given) && LiveOk(flags, live) && base % PAGE == 0
    ensures forall i, j | 0 <= i < j < |given| :: Apart(given[i], given[j])
  {
    forall i, j | 0 <= i < j < |given| ensures Apart(given[i], given[j]) {
      assert Apart(Pages(base, given[i]), Pages(base, given[j]));
      Scaled(base, given[i]);
      Scaled(base, given[j]);
    }
  }

  lemma Scaled(base: nat, r: Range)
    requires base <= r.base && Aligned(r) && base % PAGE == 0
    ensures r == Addresses(base, Pages(base, r))
  {
  }
}
