/** Where trampolines may lie, and the searches for a free region near a target
  * (detours/src/detours.cpp:96-108, 1138-1153, 1216-1377). Addresses are 64-bit.
  */
module TrampolineReach {
  import opened TrampolineHeap
  import opened TrampolineRegions
  import opened TrampolineAllocator
  import opened TrampolineConservation

  const ADDRESS_SPACE := 0x1_0000_0000_0000_0000

  /** No process address lies here or above; VirtualQuery fails for them. */
  const USER_LIMIT := 0x8000_0000_0000

  const SKIP := 0x0800_0000

  function Wrap(x: int): nat { x % ADDRESS_SPACE }

  // ----------------------------------------------------------------------- Bounds

  function detour_2gb_below(address: nat): nat { if address > 0x7ff8_0000 then address - 0x7ff8_0000 else 0x8_0000 }

  function detour_2gb_above(address: nat): nat {
    if address < 0xffff_ffff_8000_0000 then address + 0x7ff8_0000 else 0xffff_ffff_fff8_0000
  }

  /** Every byte of a trampoline within the bounds of a target is reachable from every byte of the
    * target's first page in 32 signed bits, the page distance fits the 21 signed bits of ADRP, and
    * neither bound wraps around.
    */
  lemma WithinReach(pbTarget: nat, p: nat, ob: nat, obTarget: nat)
    requires pbTarget < ADDRESS_SPACE && ob < SIZEOF_TRAMPOLINE && obTarget < 0x1000
    requires detour_2gb_below(pbTarget) <= p <= detour_2gb_above(pbTarget)
    ensures p + SIZEOF_TRAMPOLINE <= ADDRESS_SPACE
    ensures -0x8000_0000 <= (p + ob) - (pbTarget + obTarget) < 0x8000_0000
    ensures -0x10_0000 <= (p + ob) / 0x1000 - (pbTarget + obTarget) / 0x1000 < 0x10_0000
  {
    var d := (p + ob) - (pbTarget + obTarget);
    assert -0x7ff9_0000 <= d <= 0x7ff9_0000;
    var m, n := (p + ob) / 0x1000, (pbTarget + obTarget) / 0x1000;
    assert 0x1000 * (m - n) <= d + 0xfff && d - 0xfff <= 0x1000 * (m - n);
  }

  /** Away from both ends of the address space the bounds are 7ff80000h below and above. */
  lemma BoundsAreWide(address: nat, p: nat)
    requires 0x7ff8_0000 < address < 0xffff_ffff_8000_0000
    ensures detour_2gb_below(address) <= p <= detour_2gb_above(address) <==> -0x7ff8_0000 <= p - address <= 0x7ff8_0000
  {}

  function detour_alloc_round_down_to_region(pbTry: nat): (r: nat)
    ensures r <= pbTry < r + DETOUR_REGION_SIZE && r % DETOUR_REGION_SIZE == 0
  {
    RoundDown(pbTry);
    pbTry - pbTry % DETOUR_REGION_SIZE
  }

  lemma RoundDown(p: nat)
    ensures (p - p % DETOUR_REGION_SIZE) % DETOUR_REGION_SIZE == 0
  {
    assert p - p % DETOUR_REGION_SIZE == DETOUR_REGION_SIZE * (p / DETOUR_REGION_SIZE);
  }

  function detour_alloc_round_up_to_region(pbTry: nat): (r: nat)
    requires pbTry <= ADDRESS_SPACE - DETOUR_REGION_SIZE
    ensures pbTry <= r < pbTry + DETOUR_REGION_SIZE && r % DETOUR_REGION_SIZE == 0
  {
    var extra := pbTry % DETOUR_REGION_SIZE;
    RoundDown(pbTry);
    if extra != 0 then pbTry + (DETOUR_REGION_SIZE - extra) else pbTry
  }

  // --------------------------------------------------------------------- Searches

  /** MEMORY_BASIC_INFORMATION; VirtualQuery's failure is `NoInformation`. */
  datatype Information = NoInformation | Information(BaseAddress: nat, AllocationBase: nat, RegionSize: nat, free: bool)

  /** What VirtualAlloc does at an address. */
  datatype Allocation = Succeeds | DynamicCodeBlocked | Fails

  /** The system as the searches see it, with the range kept for system DLLs. */
  datatype System = System(query: nat -> Information, alloc: nat -> Allocation, lower: nat, upper: nat)

  /** VirtualQuery answers for process addresses only, with the block that contains the address. */
  ghost predicate WellBehaved(s: System) {
    && SKIP <= s.lower && s.upper < USER_LIMIT
    && forall p: nat | s.query(p).Information? :: Answers(p, s.query(p))
  }

  predicate Answers(p: nat, i: Information)
    requires i.Information?
  {
    p < USER_LIMIT && i.AllocationBase <= i.BaseAddress <= p < i.BaseAddress + i.RegionSize <= USER_LIMIT
  }

  predicate Reserved(s: System, p: nat) { s.lower <= p <= s.upper }

  /** A region the searches may return. */
  predicate Obtained(s: System, p: nat) {
    && IsRegion(p) && !Reserved(s, p) && p < USER_LIMIT
    && s.query(p).Information? && s.query(p).free && s.query(p).RegionSize >= DETOUR_REGION_SIZE
    && s.alloc(p).Succeeds?
  }

  // ------------------------------------------------------------ What searches find

  function BlockEnd(i: Information): nat
    requires i.Information?
  {
    i.BaseAddress + i.RegionSize
  }

  /** VirtualQuery agrees with itself: from an address to the end of its block the answers have the same end
    * and state, nothing is free between the base of an allocation and an address in it, and a free region
    * address is free up to the next one.
    */
  ghost predicate Consistent(s: System) {
    && (forall p: nat, q: nat | s.query(p).Information? && p <= q < BlockEnd(s.query(p)) :: SameBlock(s, p, q))
    && (forall p: nat, q: nat | s.query(p).Information? && !s.query(p).free && s.query(p).AllocationBase <= q <= p :: IsTaken(s, q))
    && (forall p: nat | s.query(p).Information? && s.query(p).free && p % DETOUR_REGION_SIZE == 0 :: FreeToNext(s, p))
  }

  predicate SameBlock(s: System, p: nat, q: nat)
    requires s.query(p).Information?
  {
    s.query(q).Information? && BlockEnd(s.query(q)) == BlockEnd(s.query(p)) && s.query(q).free == s.query(p).free
  }

  predicate IsTaken(s: System, q: nat) { s.query(q).Information? && !s.query(q).free }

  predicate FreeToNext(s: System, p: nat)
    requires s.query(p).Information?
  {
    p + DETOUR_REGION_SIZE <= BlockEnd(s.query(p)) && s.query(p).RegionSize >= DETOUR_REGION_SIZE
  }

  /** A process without any allocation. */
  const EMPTY_PROCESS := System(
    (p: nat) => if p < USER_LIMIT then Information(0, 0, USER_LIMIT, true) else NoInformation,
    (p: nat) => Succeeds, 0x7000_0000, 0x7fff_ffff)

  lemma EmptyProcess()
    ensures WellBehaved(EMPTY_PROCESS) && Consistent(EMPTY_PROCESS)
  {
    forall p: nat | p < USER_LIMIT && p % DETOUR_REGION_SIZE == 0
      ensures p + DETOUR_REGION_SIZE <= USER_LIMIT
    {
      assert USER_LIMIT % DETOUR_REGION_SIZE == 0;
    }
  }

  /** A search ends at an address: there is no information, or allocating there is blocked. */
  predicate Stops(s: System, f: nat) {
    && f % DETOUR_REGION_SIZE == 0 && !Reserved(s, f)
    && (s.query(f).NoInformation? || (s.query(f).free && s.query(f).RegionSize >= DETOUR_REGION_SIZE && s.alloc(f).DynamicCodeBlocked?))
  }

  /** What a search may pass over: it steps over the reserved range by SKIP. */
  predicate JustAbove(s: System, q: nat) { s.upper < q < s.upper + SKIP }
  predicate JustBelow(s: System, q: nat) { s.lower < q + SKIP && q < s.lower }

  /** The part of the address space that a search goes through, upward or downward. */
  datatype Range = Upward(lo: nat, hi: nat) | Downward(lo: nat, hi: nat) {
    predicate Has(q: nat) { if Upward? then lo <= q < hi else lo < q && q + DETOUR_REGION_SIZE <= hi }

    /** `q` comes before `p` in the direction of the search. */
    predicate Before(q: nat, p: nat) { if Upward? then q < p else p < q }

    predicate Skips(s: System, q: nat) { if Upward? then JustAbove(s, q) else JustBelow(s, q) }

    /** `p` is the first that can be had. */
    ghost predicate First(s: System, p: nat) {
      Has(p) && Obtained(s, p) && forall q: nat | Has(q) && Before(q, p) && Obtained(s, q) :: Skips(s, q)
    }

    /** What can be had lies behind an address at which the search ends. */
    ghost predicate Exhausted(s: System) {
      forall q: nat | Has(q) && Obtained(s, q) && !Skips(s, q) :: exists f: nat :: Has(f) && Before(f, q) && Stops(s, f)
    }

    /** What a search has returned; NULL is 0. */
    ghost predicate Result(s: System, pv: nat) { if pv == 0 then Exhausted(s) else First(s, pv) }
  }

  /** A step of a search leads from region to region. */
  lemma Steps(p: nat)
    requires p % DETOUR_REGION_SIZE == 0
    ensures (p + DETOUR_REGION_SIZE) % DETOUR_REGION_SIZE == 0 && (p + SKIP) % DETOUR_REGION_SIZE == 0
  {}

  lemma RegionsAreApart(p: nat, q: nat)
    requires p % DETOUR_REGION_SIZE == 0 && q % DETOUR_REGION_SIZE == 0 && p < q
    ensures p + DETOUR_REGION_SIZE <= q
  {}

  /** Whatever can be had below `pbTry` is skipped. */
  ghost predicate PassedUp(s: System, r: Range, pbTry: nat)
    requires r.Upward?
  {
    forall q: nat | r.Has(q) && q < pbTry && Obtained(s, q) :: r.Skips(s, q)
  }

  lemma InBlock(s: System, p: nat, q: nat)
    requires Consistent(s) && s.query(p).Information?
    ensures p <= q < BlockEnd(s.query(p)) ==> s.query(q).Information? && s.query(q).free == s.query(p).free
  {
    if p <= q < BlockEnd(s.query(p)) { assert SameBlock(s, p, q); }
  }

  lemma InAllocation(s: System, p: nat, q: nat)
    requires Consistent(s) && s.query(p).Information? && !s.query(p).free
    ensures s.query(p).AllocationBase <= q <= p ==> IsTaken(s, q)
  {}

  lemma FreeRegion(s: System, p: nat)
    requires Consistent(s) && s.query(p).Information? && p % DETOUR_REGION_SIZE == 0
    ensures s.query(p).free ==> FreeToNext(s, p)
  {}

  /** No region can be had from here to the end of the block, if this one cannot. */
  lemma NothingUp(s: System, r: Range, p: nat)
    requires WellBehaved(s) && Consistent(s) && r.Upward? && p % DETOUR_REGION_SIZE == 0 && PassedUp(s, r, p) && s.query(p).Information?
    requires !(s.query(p).free && s.query(p).RegionSize >= DETOUR_REGION_SIZE) && BlockEnd(s.query(p)) < ADDRESS_SPACE - DETOUR_REGION_SIZE
    ensures PassedUp(s, r, detour_alloc_round_up_to_region(BlockEnd(s.query(p))))
  {
    hide Reserved, Consistent;
    FreeRegion(s, p);
    var end := BlockEnd(s.query(p));
    forall q: nat | r.Has(q) && Obtained(s, q)
      ensures q < p || detour_alloc_round_up_to_region(end) <= q
    {
      InBlock(s, p, q);
      if end <= q { NextRegion(end, q); }
    }
  }

  lemma NextRegion(a: nat, q: nat)
    requires a <= ADDRESS_SPACE - DETOUR_REGION_SIZE && a <= q && q % DETOUR_REGION_SIZE == 0
    ensures detour_alloc_round_up_to_region(a) <= q
  {
    RegionsNotBetween(detour_alloc_round_up_to_region(a), q, a);
  }

  lemma RegionsNotBetween(p: nat, q: nat, a: nat)
    requires p % DETOUR_REGION_SIZE == 0 && q % DETOUR_REGION_SIZE == 0 && a <= q && p < a + DETOUR_REGION_SIZE
    ensures p <= q
  {
    if q < p { RegionsAreApart(q, p); }
  }

  lemma UpEnds(s: System, r: Range, p: nat)
    requires r.Upward? && PassedUp(s, r, p) && (p >= r.hi || (r.Has(p) && Stops(s, p)))
    ensures r.Exhausted(s)
  {
    forall q: nat | r.Has(q) && Obtained(s, q) && !r.Skips(s, q)
      ensures exists f: nat :: r.Has(f) && r.Before(f, q) && Stops(s, f)
    {
      assert p < r.hi && p <= q && p != q;
    }
  }

  /** detour_alloc_region_from_lo; NULL is 0. */
  method RegionFromLo(s: System, pbLo: nat, pbHi: nat) returns (pv: nat)
    requires WellBehaved(s) && 0 < pbLo <= ADDRESS_SPACE - DETOUR_REGION_SIZE && pbHi < ADDRESS_SPACE
    ensures pv != 0 ==> pbLo <= pv < pbHi && Obtained(s, pv)
    ensures Consistent(s) ==> Upward(pbLo, pbHi).Result(s, pv)
  {
    hide Consistent, PassedUp, Range.Exhausted, Range.First, Range.Skips;
    ghost var r := Upward(pbLo, pbHi);
    var pbTry: nat := detour_alloc_round_up_to_region(pbLo);
    StartsUp(s, r, pbTry);
    while pbTry < pbHi
      invariant pbLo <= pbTry && pbTry % DETOUR_REGION_SIZE == 0
      invariant Consistent(s) ==> PassedUp(s, r, pbTry)
      decreases pbHi - pbTry
    {
      Steps(pbTry);
      if s.lower <= pbTry <= s.upper {
        if Consistent(s) { SkipUp(s, r, pbTry); }
        pbTry := Wrap(pbTry + SKIP);
      } else {
        var mbi := s.query(pbTry);
        if mbi.NoInformation? {
          if Consistent(s) { UpEnds(s, r, pbTry); }
          return 0;
        }
        assert Answers(pbTry, s.query(pbTry));
        if mbi.free && mbi.RegionSize >= DETOUR_REGION_SIZE {
          match s.alloc(pbTry)
          case Succeeds =>
            if Consistent(s) { FirstUp(s, r, pbTry); }
            return pbTry;
          case DynamicCodeBlocked =>
            if Consistent(s) { UpEnds(s, r, pbTry); }
            return 0;
          case Fails =>
            if Consistent(s) { NotHereUp(s, r, pbTry); }
            pbTry := Wrap(pbTry + DETOUR_REGION_SIZE);
        } else {
          if Consistent(s) { NothingUp(s, r, pbTry); }
          pbTry := detour_alloc_round_up_to_region(mbi.BaseAddress + mbi.RegionSize);
        }
      }
    }
    if Consistent(s) { UpEnds(s, r, pbTry); }
    return 0;
  }

  lemma StartsUp(s: System, r: Range, p: nat)
    requires r.Upward? && p % DETOUR_REGION_SIZE == 0 && r.lo <= p < r.lo + DETOUR_REGION_SIZE
    ensures PassedUp(s, r, p)
  {
    forall q: nat | r.Has(q) && Obtained(s, q)
      ensures p <= q
    {
      RegionsNotBetween(p, q, r.lo);
    }
  }

  lemma SkipUp(s: System, r: Range, p: nat)
    requires r.Upward? && PassedUp(s, r, p) && Reserved(s, p)
    ensures PassedUp(s, r, p + SKIP)
  {}

  lemma NotHereUp(s: System, r: Range, p: nat)
    requires r.Upward? && PassedUp(s, r, p) && p % DETOUR_REGION_SIZE == 0 && !Obtained(s, p)
    ensures PassedUp(s, r, p + DETOUR_REGION_SIZE)
  {
    forall q: nat | r.Has(q) && q < p + DETOUR_REGION_SIZE && Obtained(s, q)
      ensures r.Skips(s, q)
    {
      if q > p { RegionsAreApart(p, q); }
    }
  }

  lemma FirstUp(s: System, r: Range, p: nat)
    requires r.Upward? && PassedUp(s, r, p) && r.Has(p) && Obtained(s, p)
    ensures r.First(s, p)
  {}

  /** Decreases with every step of the downward search: a step that wraps around leaves the
    * process's addresses, and the next query fails.
    */
  function Remaining(pbTry: nat): nat { if pbTry < USER_LIMIT then pbTry + 1 else 0 }

  /** Whatever can be had above `pbTry` is skipped; outside the range there is nothing more. */
  ghost predicate PassedDown(s: System, r: Range, pbTry: nat)
    requires r.Downward?
  {
    forall q: nat | r.Has(q) && (q > pbTry || pbTry + DETOUR_REGION_SIZE > r.hi) && Obtained(s, q) :: r.Skips(s, q)
  }

  lemma StartsDown(s: System, r: Range)
    requires r.Downward? && r.hi < ADDRESS_SPACE
    ensures PassedDown(s, r, detour_alloc_round_down_to_region(Wrap(r.hi - DETOUR_REGION_SIZE)))
  {
    var p := detour_alloc_round_down_to_region(Wrap(r.hi - DETOUR_REGION_SIZE));
    forall q: nat | r.Has(q) && Obtained(s, q)
      ensures q <= p && p + DETOUR_REGION_SIZE <= r.hi
    {
      DownTo(r.hi, q);
    }
  }

  lemma SkipDown(s: System, r: Range, p: nat)
    requires r.Downward? && PassedDown(s, r, p) && Reserved(s, p) && SKIP <= p && p + DETOUR_REGION_SIZE <= r.hi
    ensures PassedDown(s, r, p - SKIP)
  {}

  lemma NotHereDown(s: System, r: Range, p: nat)
    requires r.Downward? && PassedDown(s, r, p) && p % DETOUR_REGION_SIZE == 0 && 0 < p && p + DETOUR_REGION_SIZE <= r.hi && !Obtained(s, p)
    ensures p >= DETOUR_REGION_SIZE && PassedDown(s, r, p - DETOUR_REGION_SIZE)
  {
    RegionsAreApart(0, p);
    forall q: nat | r.Has(q) && q > p - DETOUR_REGION_SIZE && Obtained(s, q)
      ensures r.Skips(s, q)
    {
      if q < p { RegionsAreApart(q, p); }
    }
  }

  /** No region can be had from here down to the base of the allocation, if this one is taken. */
  lemma NothingDown(s: System, r: Range, p: nat)
    requires WellBehaved(s) && Consistent(s) && r.Downward? && p % DETOUR_REGION_SIZE == 0 && PassedDown(s, r, p) && s.query(p).Information?
    requires r.hi < ADDRESS_SPACE && p + DETOUR_REGION_SIZE <= r.hi
    requires !(s.query(p).free && s.query(p).RegionSize >= DETOUR_REGION_SIZE)
    ensures PassedDown(s, r, detour_alloc_round_down_to_region(Wrap(s.query(p).AllocationBase - DETOUR_REGION_SIZE)))
  {
    hide Reserved, Consistent;
    FreeRegion(s, p);
    var base := s.query(p).AllocationBase;
    var next := detour_alloc_round_down_to_region(Wrap(base - DETOUR_REGION_SIZE));
    forall q: nat | r.Has(q) && Obtained(s, q)
      ensures p < q || (q <= next && next + DETOUR_REGION_SIZE <= base)
    {
      if q <= p {
        NotBelowBase(s, p, q);
        DownTo(base, q);
      }
    }
    assert Answers(p, s.query(p));
  }

  lemma DownTo(a: nat, q: nat)
    requires q % DETOUR_REGION_SIZE == 0 && q + DETOUR_REGION_SIZE <= a < ADDRESS_SPACE
    ensures var p := detour_alloc_round_down_to_region(Wrap(a - DETOUR_REGION_SIZE)); q <= p && p + DETOUR_REGION_SIZE <= a
  {
    RegionsNotBetween(q, detour_alloc_round_down_to_region(a - DETOUR_REGION_SIZE), q);
  }

  /** A region that can be had and is not above an address in an allocation lies at least its own size below the
    * base of the allocation.
    */
  lemma NotBelowBase(s: System, p: nat, q: nat)
    requires WellBehaved(s) && Consistent(s) && s.query(p).Information? && !s.query(p).free && q <= p && Obtained(s, q)
    ensures q + DETOUR_REGION_SIZE <= s.query(p).AllocationBase
  {
    hide Reserved, Consistent;
    var base := s.query(p).AllocationBase;
    assert Answers(p, s.query(p));
    InAllocation(s, p, q);
    InAllocation(s, p, base);
    FreeRegion(s, q);
    InBlock(s, q, base);
  }

  lemma DownEnds(s: System, r: Range, p: nat)
    requires r.Downward? && PassedDown(s, r, p)
    requires p <= r.lo || p + DETOUR_REGION_SIZE > r.hi || (r.Has(p) && Stops(s, p))
    ensures r.Exhausted(s)
  {
    forall q: nat | r.Has(q) && Obtained(s, q) && !r.Skips(s, q)
      ensures exists f: nat :: r.Has(f) && r.Before(f, q) && Stops(s, f)
    {
      assert q <= p && p + DETOUR_REGION_SIZE <= r.hi;
    }
  }

  lemma FirstDown(s: System, r: Range, p: nat)
    requires r.Downward? && PassedDown(s, r, p) && r.Has(p) && Obtained(s, p)
    ensures r.First(s, p)
  {}

  lemma StepsDown(p: nat)
    requires p % DETOUR_REGION_SIZE == 0 && 0 < p < ADDRESS_SPACE
    ensures Wrap(p - DETOUR_REGION_SIZE) == p - DETOUR_REGION_SIZE && (p - DETOUR_REGION_SIZE) % DETOUR_REGION_SIZE == 0
    ensures SKIP <= p ==> Wrap(p - SKIP) == p - SKIP && (p - SKIP) % DETOUR_REGION_SIZE == 0
  {}

  /** detour_alloc_region_from_hi; NULL is 0. */
  method RegionFromHi(s: System, pbLo: nat, pbHi: nat) returns (pv: nat)
    requires WellBehaved(s) && pbHi < ADDRESS_SPACE
    ensures pv != 0 ==> pbLo < pv && pv + DETOUR_REGION_SIZE <= pbHi && Obtained(s, pv)
    ensures Consistent(s) ==> Downward(pbLo, pbHi).Result(s, pv)
  {
    hide Consistent, PassedDown, Range.Exhausted, Range.First, Range.Skips;
    ghost var r := Downward(pbLo, pbHi);
    var pbTry: nat := detour_alloc_round_down_to_region(Wrap(pbHi - DETOUR_REGION_SIZE));
    StartsDown(s, r);
    while pbTry > pbLo
      invariant pbTry % DETOUR_REGION_SIZE == 0
      invariant pbTry < USER_LIMIT ==> pbTry + DETOUR_REGION_SIZE <= pbHi
      invariant Consistent(s) ==> PassedDown(s, r, pbTry)
      decreases Remaining(pbTry)
    {
      if pbTry < ADDRESS_SPACE { StepsDown(pbTry); }
      if s.lower <= pbTry <= s.upper {
        if Consistent(s) { SkipDown(s, r, pbTry); }
        pbTry := Wrap(pbTry - SKIP);
      } else {
        var mbi := s.query(pbTry);
        if mbi.NoInformation? {
          if Consistent(s) { DownEnds(s, r, pbTry); }
          return 0;
        }
        assert Answers(pbTry, s.query(pbTry));
        if mbi.free && mbi.RegionSize >= DETOUR_REGION_SIZE {
          match s.alloc(pbTry)
          case Succeeds =>
            if Consistent(s) { FirstDown(s, r, pbTry); }
            return pbTry;
          case DynamicCodeBlocked =>
            if Consistent(s) { DownEnds(s, r, pbTry); }
            return 0;
          case Fails =>
            if Consistent(s) { NotHereDown(s, r, pbTry); }
            pbTry := Wrap(pbTry - DETOUR_REGION_SIZE);
        } else {
          if Consistent(s) { NothingDown(s, r, pbTry); }
          pbTry := detour_alloc_round_down_to_region(Wrap(mbi.AllocationBase - DETOUR_REGION_SIZE));
        }
      }
    }
    if Consistent(s) { DownEnds(s, r, pbTry); }
    return 0;
  }

  /** The bounds for a target once it has been rounded down to its region. */
  predicate Near(pbTarget: nat, p: nat) { pbTarget <= p + 0x4000_0000 && p <= pbTarget + 0x4000_0000 }

  /** The ranges that are searched for a region for a target, in this order: at least 1 GB below, at least
    * 1 GB above, within 1 GB below, within 1 GB above, anything below, anything above.
    */
  predicate IsRange(r: Range, k: int, pbTarget: nat, pLo: nat, pHi: nat) {
    || (k == 0 && pbTarget > 0x4000_0000 && r == Downward(pLo, pbTarget - 0x4000_0000))
    || (k == 1 && pbTarget < 0xffff_ffff_4000_0000 && r == Upward(pbTarget + 0x4000_0000, pHi))
    || (k == 2 && pbTarget > 0x4000_0000 && r == Upward(pbTarget - 0x4000_0000, pbTarget))
    || (k == 3 && pbTarget < 0xffff_ffff_4000_0000 && r == Downward(pbTarget, pbTarget + 0x4000_0000))
    || (k == 4 && r == Downward(pLo, pbTarget))
    || (k == 5 && r == Upward(pbTarget, pHi))
  }

  /** No region is left in any range before the `k`th. */
  ghost predicate ExhaustedBefore(s: System, k: int, pbTarget: nat, pLo: nat, pHi: nat) {
    forall j, r: Range | 0 <= j < k && IsRange(r, j, pbTarget, pLo, pHi) :: r.Exhausted(s)
  }

  /** It is the first that can be had in the first range that has one. */
  ghost predicate FoundAt(s: System, k: int, r: Range, pbTarget: nat, pLo: nat, pHi: nat, pbTry: nat) {
    IsRange(r, k, pbTarget, pLo, pHi) && r.First(s, pbTry) && ExhaustedBefore(s, k, pbTarget, pLo, pHi)
  }

  /** NULL means that every range is exhausted. */
  ghost predicate Searched(s: System, pbTarget: nat, pLo: nat, pHi: nat, pbTry: nat) {
    if pbTry == 0 then ExhaustedBefore(s, 6, pbTarget, pLo, pHi)
    else exists k, r: Range :: FoundAt(s, k, r, pbTarget, pLo, pHi, pbTry)
  }

  /** detour_alloc_trampoline_allocate_new: below by 1 GB or more, above by 1 GB or more, within 1 GB
    * below, within 1 GB above, then anything below or above.
    */
  method AllocateNew(s: System, pbTarget: nat, pLo: nat, pHi: nat) returns (pbTry: nat)
    requires WellBehaved(s) && 0 < pbTarget <= ADDRESS_SPACE - DETOUR_REGION_SIZE && pHi < ADDRESS_SPACE
    ensures pbTry != 0 ==> Obtained(s, pbTry) && ((pLo < pbTry < pbTarget || pbTarget <= pbTry < pHi) || Near(pbTarget, pbTry))
    ensures Consistent(s) ==> Searched(s, pbTarget, pLo, pHi, pbTry)
  {
    hide Consistent, Range.Exhausted, Range.First, Obtained;
    pbTry := 0;
    ghost var k, r := 0, Downward(pLo, pbTarget);
    if pbTry == 0 && pbTarget > 0x4000_0000 {
      pbTry := RegionFromHi(s, pLo, pbTarget - 0x4000_0000);
      k, r := 0, Downward(pLo, pbTarget - 0x4000_0000);
    }
    assert Consistent(s) && pbTry == 0 ==> ExhaustedBefore(s, 1, pbTarget, pLo, pHi);
    if pbTry == 0 && pbTarget < 0xffff_ffff_4000_0000 {
      pbTry := RegionFromLo(s, pbTarget + 0x4000_0000, pHi);
      k, r := 1, Upward(pbTarget + 0x4000_0000, pHi);
    }
    assert Consistent(s) && pbTry == 0 ==> ExhaustedBefore(s, 2, pbTarget, pLo, pHi);
    if pbTry == 0 && pbTarget > 0x4000_0000 {
      pbTry := RegionFromLo(s, pbTarget - 0x4000_0000, pbTarget);
      k, r := 2, Upward(pbTarget - 0x4000_0000, pbTarget);
    }
    assert Consistent(s) && pbTry == 0 ==> ExhaustedBefore(s, 3, pbTarget, pLo, pHi);
    if pbTry == 0 && pbTarget < 0xffff_ffff_4000_0000 {
      pbTry := RegionFromHi(s, pbTarget, pbTarget + 0x4000_0000);
      k, r := 3, Downward(pbTarget, pbTarget + 0x4000_0000);
    }
    assert Consistent(s) && pbTry == 0 ==> ExhaustedBefore(s, 4, pbTarget, pLo, pHi);
    if pbTry == 0 {
      pbTry := RegionFromHi(s, pLo, pbTarget);
      k, r := 4, Downward(pLo, pbTarget);
    }
    assert Consistent(s) && pbTry == 0 ==> ExhaustedBefore(s, 5, pbTarget, pLo, pHi);
    if pbTry == 0 {
      pbTry := RegionFromLo(s, pbTarget, pHi);
      k, r := 5, Upward(pbTarget, pHi);
    }
    assert Consistent(s) ==> if pbTry == 0 then ExhaustedBefore(s, 6, pbTarget, pLo, pHi) else FoundAt(s, k, r, pbTarget, pLo, pHi, pbTry);
  }

  /** The first slot of a region found for a target is within the target's bounds, so the last check
    * in the allocation passes, if the target is above 2 GB and the region ends below the upper bound.
    */
  lemma NewRegionServes(pbTarget: nat, r: nat)
    requires 0x8000_0000 < pbTarget < ADDRESS_SPACE
    requires FoundFor(pbTarget, r)
    requires r + DETOUR_REGION_SIZE <= detour_2gb_above(pbTarget)
    ensures detour_2gb_below(pbTarget) <= Slot(r, 2) <= detour_2gb_above(pbTarget)
  {
    var t := pbTarget - pbTarget % DETOUR_REGION_SIZE;
    assert t <= pbTarget < t + DETOUR_REGION_SIZE;
  }

  /** The bounds of a target. */
  predicate InReach(pbTarget: nat, p: nat) { detour_2gb_below(pbTarget) <= p <= detour_2gb_above(pbTarget) }

  /** What the searches promise of a region they find for a target. */
  predicate FoundFor(pbTarget: nat, r: nat) {
    var t := pbTarget - pbTarget % DETOUR_REGION_SIZE;
    detour_2gb_below(pbTarget) < r < t || t <= r < detour_2gb_above(pbTarget) || Near(t, r)
  }

  /** An allocation for a target, given the region the searches found for it, returns a slot, and every
    * byte of that slot is reachable from the target; if no region served before, it is the first slot of
    * the region found.
    */
  lemma AllocationReaches(h: Heap, v: View, pbTarget: nat, r: nat, ob: nat, obTarget: nat)
    requires Represents(h, v) && Known(v, h.pRegion) && IsRegion(r) && r !in v.order
    requires 0x8000_0000 < pbTarget && pbTarget + 0x1000 <= ADDRESS_SPACE && ob < SIZEOF_TRAMPOLINE && obTarget < 0x1000
    requires FoundFor(pbTarget, r) && r + DETOUR_REGION_SIZE <= detour_2gb_above(pbTarget)
    ensures var pLo, pHi := detour_2gb_below(pbTarget), detour_2gb_above(pbTarget);
      var (w, p) := Allocated(v, h.pRegion, pLo, pHi, r);
      && p != 0 && p !in v.live && w.live == v.live + {p} && InReach(pbTarget, p)
      && -0x8000_0000 <= (p + ob) - (pbTarget + obTarget) < 0x8000_0000
      && ((forall q: nat | q in v.order :: !Serves(v, q, pLo, pHi)) ==> p == Slot(r, 2) && w.order == [r] + v.order)
  {
    var pLo, pHi := detour_2gb_below(pbTarget), detour_2gb_above(pbTarget);
    NewRegionServes(pbTarget, r);
    hide Represents, IsRegion, detour_2gb_below, detour_2gb_above, Slot, Usable;
    AllocationIsSafe(h, v, pLo, pHi, r);
    WithinReach(pbTarget, Allocated(v, h.pRegion, pLo, pHi, r).1, ob, obTarget);
    ChosenServes(h, v, pLo, pHi);
    hide Chosen, Serves;
    if Chosen(v, h.pRegion, pLo, pHi) == 0 {
      GrownAndTaken(v, r);
    }
  }

  lemma GrownAndTaken(v: View, r: nat)
    requires IsRegion(r)
    ensures ViewTake(ViewGrow(v, r), r).order == [r] + v.order
  {
    GrowFront(v, r);
  }

  /** The searches for a target, with its bounds. */
  method RegionFor(s: System, pbTarget: nat) returns (pNew: nat)
    requires WellBehaved(s) && DETOUR_REGION_SIZE <= pbTarget <= ADDRESS_SPACE - DETOUR_REGION_SIZE
    ensures pNew != 0 ==> Obtained(s, pNew) && FoundFor(pbTarget, pNew)
    ensures Consistent(s) ==>
      Searched(s, pbTarget - pbTarget % DETOUR_REGION_SIZE, detour_2gb_below(pbTarget), detour_2gb_above(pbTarget), pNew)
  {
    hide Searched, Consistent, Obtained, WellBehaved;
    pNew := AllocateNew(s, pbTarget - pbTarget % DETOUR_REGION_SIZE, detour_2gb_below(pbTarget), detour_2gb_above(pbTarget));
  }

  /** detour_alloc_trampoline with the bounds of the target and the region the searches find; here they
    * come first, as they change nothing but the system. A region in use is not free.
    */
  method AllocateFor(heap: Regions, s: System, pbTarget: nat) returns (pTrampoline: nat, pNew: nat)
    requires heap.Valid() && WellBehaved(s) && DETOUR_REGION_SIZE <= pbTarget && pbTarget + 0x1000 <= ADDRESS_SPACE
    requires pbTarget <= ADDRESS_SPACE - DETOUR_REGION_SIZE
    requires forall r | r in heap.view.order :: s.query(r).Information? ==> !s.query(r).free
    modifies heap
    ensures heap.Valid()
    ensures pNew != 0 ==> Obtained(s, pNew) && FoundFor(pbTarget, pNew)
    ensures Consistent(s) ==>
      Searched(s, pbTarget - pbTarget % DETOUR_REGION_SIZE, detour_2gb_below(pbTarget), detour_2gb_above(pbTarget), pNew)
    ensures old(Known(heap.view, heap.s_pRegion)) && (heap.view, pTrampoline) ==
      old(Allocated(heap.view, heap.s_pRegion, detour_2gb_below(pbTarget), detour_2gb_above(pbTarget), pNew))
    ensures pTrampoline != 0 ==> InReach(pbTarget, pTrampoline)
    ensures 0x8000_0000 < pbTarget && pNew != 0 && pNew + DETOUR_REGION_SIZE <= detour_2gb_above(pbTarget) ==> pTrampoline != 0
  {
    hide Represents, detour_2gb_below, detour_2gb_above, Searched, Consistent, WellBehaved, FoundFor, Slot, Allocated, Serves;
    var pLo, pHi := detour_2gb_below(pbTarget), detour_2gb_above(pbTarget);
    pNew := RegionFor(s, pbTarget);
    ghost var h, v := heap.State(), heap.view;
    pTrampoline := heap.AllocTrampoline(pLo, pHi, pNew);
    AllocationIsSafe(h, v, pLo, pHi, pNew);
    if 0x8000_0000 < pbTarget && pNew != 0 && pNew + DETOUR_REGION_SIZE <= pHi {
      NewRegionServes(pbTarget, pNew);
    }
  }
}
