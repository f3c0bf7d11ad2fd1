/** The trampoline allocator (detours/src/detours.cpp:1177-1191, 1398-1519): regions of 64 KB in a
  * list, each with a free list threaded through the `pbRemain` field of its unused trampolines.
  * Addresses are numbers, 0 is NULL, and memory is a map from addresses to records; the sizes are
  * those of the ARM64 build.
  */
module TrampolineHeap {
  const DETOUR_REGION_SIZE := 0x1_0000
  const SIZEOF_TRAMPOLINE := 184
  const DETOUR_TRAMPOLINES_PER_REGION := DETOUR_REGION_SIZE / SIZEOF_TRAMPOLINE - 1
  const DETOUR_REGION_SIGNATURE := 0x5272_7464

  datatype DETOUR_REGION = DETOUR_REGION(dwSignature: nat, pNext: nat, pFree: nat)

  datatype Trampoline = Trampoline(pbRemain: nat, pbDetour: nat, cbRestore: nat, rbRestore: seq<bv8>)

  const ZEROED := Trampoline(0, 0, 0, [])

  /** memset(0xcc). */
  const DEBUG_FILL := Trampoline(0xcccc_cccc_cccc_cccc, 0xcccc_cccc_cccc_cccc, 0xcc, [])

  // ------------------------------------------------------------------ Slots

  /** The address of `((PDETOUR_TRAMPOLINE)pRegion + 1)[i]`. */
  function Slot(region: nat, i: nat): nat { region + SIZEOF_TRAMPOLINE * (i + 1) }

  function RegionOf(p: nat): nat { p - p % DETOUR_REGION_SIZE }

  predicate IsRegion(r: nat) { r > 0 && r % DETOUR_REGION_SIZE == 0 }

  /** A slot of `region` with index at least `first`. */
  predicate IsSlot(region: nat, p: nat, first: nat) {
    && Slot(region, first) <= p <= Slot(region, DETOUR_TRAMPOLINES_PER_REGION - 1)
    && (p - region) % SIZEOF_TRAMPOLINE == 0
  }

  /** The slots the free list is built from; the first two are never handed out. */
  predicate Usable(region: nat, p: nat) { IsSlot(region, p, 2) }

  lemma SlotIsSlot(region: nat, i: nat, first: nat)
    requires first <= i < DETOUR_TRAMPOLINES_PER_REGION
    ensures IsSlot(region, Slot(region, i), first)
  {}

  lemma SlotIndex(region: nat, p: nat, first: nat) returns (i: nat)
    requires IsSlot(region, p, first)
    ensures first <= i < DETOUR_TRAMPOLINES_PER_REGION && p == Slot(region, i)
  {
    i := (p - region) / SIZEOF_TRAMPOLINE - 1;
  }

  /** A slot lies strictly inside its region, so its address gives the region back. */
  lemma SlotRegion(region: nat, p: nat)
    requires IsRegion(region) && IsSlot(region, p, 0)
    ensures RegionOf(p) == region && region < p && p + SIZEOF_TRAMPOLINE <= region + DETOUR_REGION_SIZE
  {
    var off := p - region;
    assert (region + off) % DETOUR_REGION_SIZE == off;
  }

  lemma RegionsApart(r: nat, r1: nat)
    requires IsRegion(r) && IsRegion(r1) && r < r1
    ensures r + DETOUR_REGION_SIZE <= r1
  {
    var m, n := r / DETOUR_REGION_SIZE, r1 / DETOUR_REGION_SIZE;
    assert r == DETOUR_REGION_SIZE * m && r1 == DETOUR_REGION_SIZE * n;
  }

  /** Distinct slots do not overlap. */
  lemma SlotsDisjoint(r: nat, p: nat, r1: nat, q: nat)
    requires IsRegion(r) && IsRegion(r1) && IsSlot(r, p, 0) && IsSlot(r1, q, 0) && p != q
    ensures p + SIZEOF_TRAMPOLINE <= q || q + SIZEOF_TRAMPOLINE <= p
  {
    SlotRegion(r, p);
    SlotRegion(r1, q);
    if r == r1 {
      var i := SlotIndex(r, p, 0);
      var j := SlotIndex(r1, q, 0);
    } else if r < r1 {
      RegionsApart(r, r1);
    } else {
      RegionsApart(r1, r);
    }
  }

  // ----------------------------------------------------------------- Chains

  /** `s` is the free list that starts at `head`. */
  predicate FreeChain(ts: map<nat, Trampoline>, head: nat, s: seq<nat>)
    decreases |s|
  {
    if s == [] then head == 0
    else head != 0 && head == s[0] && head in ts && FreeChain(ts, ts[head].pbRemain, s[1..])
  }

  /** `s` is the list of regions that starts at `head`. */
  predicate RegionChain(rs: map<nat, DETOUR_REGION>, head: nat, s: seq<nat>)
    decreases |s|
  {
    if s == [] then head == 0
    else head != 0 && head == s[0] && head in rs && RegionChain(rs, rs[head].pNext, s[1..])
  }

  predicate NoDuplicates(s: seq<nat>) { forall i, j | 0 <= i < j < |s| :: s[i] != s[j] }

  lemma {:induction false} FreeChainFrame(ts: map<nat, Trampoline>, ts1: map<nat, Trampoline>, head: nat, s: seq<nat>)
    requires FreeChain(ts, head, s)
    requires forall x | x in s :: x in ts && x in ts1 && ts[x].pbRemain == ts1[x].pbRemain
    ensures FreeChain(ts1, head, s)
    decreases |s|
  {
    if s != [] {
      FreeChainFrame(ts, ts1, ts[head].pbRemain, s[1..]);
    }
  }

  lemma {:induction false} RegionChainFrame(rs: map<nat, DETOUR_REGION>, rs1: map<nat, DETOUR_REGION>, head: nat, s: seq<nat>)
    requires RegionChain(rs, head, s)
    requires forall x | x in s :: x in rs && x in rs1 && rs[x].pNext == rs1[x].pNext
    ensures RegionChain(rs1, head, s)
    decreases |s|
  {
    if s != [] {
      RegionChainFrame(rs, rs1, rs[head].pNext, s[1..]);
    }
  }

  /** The usable slots of a fresh region from index `i` on, in address order. */
  function SlotsFrom(region: nat, i: nat): seq<nat>
    requires i <= DETOUR_TRAMPOLINES_PER_REGION
    decreases DETOUR_TRAMPOLINES_PER_REGION - i
  {
    if i == DETOUR_TRAMPOLINES_PER_REGION then [] else [Slot(region, i)] + SlotsFrom(region, i + 1)
  }

  lemma {:induction false} SlotsFromAre(region: nat, i: nat)
    requires i <= DETOUR_TRAMPOLINES_PER_REGION
    ensures forall p :: p in SlotsFrom(region, i) <==> IsSlot(region, p, i)
    ensures NoDuplicates(SlotsFrom(region, i))
    decreases DETOUR_TRAMPOLINES_PER_REGION - i
  {
    if i < DETOUR_TRAMPOLINES_PER_REGION {
      SlotsFromAre(region, i + 1);
      SlotIsSlot(region, i, i);
      var rest := SlotsFrom(region, i + 1);
      forall p
        ensures p in SlotsFrom(region, i) <==> IsSlot(region, p, i)
      {
        if IsSlot(region, p, i) && p != Slot(region, i) {
          var k := SlotIndex(region, p, i);
          SlotIsSlot(region, k, i + 1);
        }
      }
      assert Slot(region, i) !in rest;
    }
  }

  /** Each free slot's `pbRemain` is the next one, and the last one's is NULL. */
  lemma {:induction false} FreeChainMembers(ts: map<nat, Trampoline>, head: nat, s: seq<nat>)
    requires FreeChain(ts, head, s)
    ensures forall x | x in s :: x in ts
    ensures forall x | x in s :: ts[x].pbRemain == 0 || ts[x].pbRemain in s
    decreases |s|
  {
    if s != [] {
      FreeChainMembers(ts, ts[head].pbRemain, s[1..]);
    }
  }

  lemma {:induction false} RegionChainMembers(rs: map<nat, DETOUR_REGION>, head: nat, s: seq<nat>)
    requires RegionChain(rs, head, s)
    ensures forall x | x in s :: x in rs
    decreases |s|
  {
    if s != [] {
      RegionChainMembers(rs, rs[head].pNext, s[1..]);
    }
  }

  // ------------------------------------------------------- Heap and its meaning

  /** The allocator's variables: `s_pRegions`, `s_pRegion` and the memory of the regions. */
  datatype Heap = Heap(pRegions: nat, pRegion: nat, regions: map<nat, DETOUR_REGION>, trampolines: map<nat, Trampoline>)

  /** What they stand for: the regions in list order, each one's free slots in list order, and the
    * slots in use. */
  datatype View = View(order: seq<nat>, free: map<nat, seq<nat>>, live: set<nat>)

  /** Free slots, live slots and the two reserved slots partition the region. */
  predicate Partitioned(r: nat, free: seq<nat>, live: set<nat>) {
    && NoDuplicates(free)
    && (forall p | p in free :: Usable(r, p) && p !in live)
    && (forall i | 2 <= i < DETOUR_TRAMPOLINES_PER_REGION :: Slot(r, i) in free || Slot(r, i) in live)
  }

  predicate RegionRep(h: Heap, v: View, r: nat)
    requires r in v.free
  {
    && r in h.regions && h.regions[r].dwSignature == DETOUR_REGION_SIGNATURE
    && FreeChain(h.trampolines, h.regions[r].pFree, v.free[r])
    && Partitioned(r, v.free[r], v.live)
    && (forall i | 0 <= i < DETOUR_TRAMPOLINES_PER_REGION :: Slot(r, i) in h.trampolines)
    && h.trampolines[Slot(r, 0)] == ZEROED && h.trampolines[Slot(r, 1)] == ZEROED
    && (forall p | p in v.free[r] && p in h.trampolines :: h.trampolines[p].cbRestore == 0)
  }

  /** The list of regions and where slots may lie. */
  ghost predicate Shaped(h: Heap, v: View) {
    && RegionChain(h.regions, h.pRegions, v.order) && NoDuplicates(v.order)
    && (forall r | r in h.regions :: r in v.order)
    && (forall r | r in v.order :: IsRegion(r))
    && (h.pRegion == 0 || h.pRegion in v.order)
    && (forall r :: r in v.free <==> r in v.order)
    && (forall p | p in v.live :: RegionOf(p) in v.order && Usable(RegionOf(p), p))
    && (forall p | p in h.trampolines :: RegionOf(p) in v.order && IsSlot(RegionOf(p), p, 0))
  }

  ghost predicate Represents(h: Heap, v: View) {
    Shaped(h, v) && forall r | r in v.order :: RegionRep(h, v, r)
  }

  /** A region keeps its representation when nothing of it changes. */
  lemma RegionRepFrame(h: Heap, v: View, h1: Heap, v1: View, r: nat)
    requires r in v.free && r in v1.free && RegionRep(h, v, r) && IsRegion(r)
    requires v1.free[r] == v.free[r]
    requires r in h1.regions && h1.regions[r].dwSignature == h.regions[r].dwSignature && h1.regions[r].pFree == h.regions[r].pFree
    requires forall q | RegionOf(q) == r ::
      (q in v1.live <==> q in v.live) && (q in h.trampolines ==> q in h1.trampolines && h1.trampolines[q] == h.trampolines[q])
    ensures RegionRep(h1, v1, r)
  {
    forall i | 0 <= i < DETOUR_TRAMPOLINES_PER_REGION
      ensures RegionOf(Slot(r, i)) == r
    {
      SlotIsSlot(r, i, 0);
      SlotRegion(r, Slot(r, i));
    }
    forall q | q in v.free[r]
      ensures RegionOf(q) == r
    {
      SlotRegion(r, q);
    }
    FreeChainMembers(h.trampolines, h.regions[r].pFree, v.free[r]);
    FreeChainFrame(h.trampolines, h1.trampolines, h.regions[r].pFree, v.free[r]);
  }

  lemma FreeSlot(r: nat, free: seq<nat>, live: set<nat>, p: nat)
    requires IsRegion(r) && Partitioned(r, free, live) && p in free
    ensures Usable(r, p) && IsSlot(r, p, 0) && RegionOf(p) == r && p !in live
  {
    SlotRegion(r, p);
  }

  /** `h1` and `v1` differ from `h` and `v` in the free list of region `r` and in its slot `p`. */
  ghost predicate OneSlotChanged(h: Heap, v: View, h1: Heap, v1: View, r: nat, p: nat) {
    && r in v.order && r in h.regions && RegionOf(p) == r && Usable(r, p) && p in h.trampolines && p in h1.trampolines
    && h1 == h.(regions := h1.regions, trampolines := h.trampolines[p := h1.trampolines[p]])
    && r in h1.regions && h1.regions == h.regions[r := h.regions[r].(pFree := h1.regions[r].pFree)]
    && r in v1.free && v1 == v.(free := v.free[r := v1.free[r]], live := v1.live)
    && (v1.live == v.live + {p} || v1.live == v.live - {p})
  }

  lemma OtherRegionKept(h: Heap, v: View, h1: Heap, v1: View, r: nat, p: nat, r1: nat)
    requires OneSlotChanged(h, v, h1, v1, r, p) && r1 != r && IsRegion(r1) && r1 in v.free && RegionRep(h, v, r1)
    ensures r1 in v1.free && RegionRep(h1, v1, r1)
  {
    hide RegionRep, RegionOf, Usable, IsRegion;
    assert r1 in h.regions by { RegionRepKnown(h, v, r1); }
    RegionRepFrame(h, v, h1, v1, r1);
  }

  lemma RegionRepKnown(h: Heap, v: View, r: nat)
    requires r in v.free && RegionRep(h, v, r)
    ensures r in h.regions
  {}

  lemma ShapeKept(h: Heap, v: View, h1: Heap, v1: View, r: nat, p: nat)
    requires Shaped(h, v) && OneSlotChanged(h, v, h1, v1, r, p)
    ensures Shaped(h1, v1)
  {
    hide IsSlot, Usable, RegionOf, IsRegion, NoDuplicates;
    RegionChainMembers(h.regions, h.pRegions, v.order);
    RegionChainFrame(h.regions, h1.regions, h.pRegions, v.order);
  }

  /** Changing one free list and one slot of one region leaves the others represented. */
  lemma OneSlotChangedKeeps(h: Heap, v: View, h1: Heap, v1: View, r: nat, p: nat)
    requires Represents(h, v) && OneSlotChanged(h, v, h1, v1, r, p)
    requires RegionRep(h1, v1, r)
    ensures Represents(h1, v1)
  {
    hide RegionRep, OneSlotChanged, RegionChain, NoDuplicates, IsSlot, Usable;
    ShapeKept(h, v, h1, v1, r, p);
    assert v1.order == v.order by { SameOrder(h, v, h1, v1, r, p); }
    forall r1 | r1 in v.order && r1 != r
      ensures RegionRep(h1, v1, r1)
    {
      OtherRegionKept(h, v, h1, v1, r, p, r1);
    }
  }

  lemma SameOrder(h: Heap, v: View, h1: Heap, v1: View, r: nat, p: nat)
    requires OneSlotChanged(h, v, h1, v1, r, p)
    ensures v1.order == v.order
  {}

  // --------------------------------------------- Taking and giving back a slot

  function HeapTake(h: Heap, r: nat): Heap
    requires r in h.regions && h.regions[r].pFree in h.trampolines
  {
    var p := h.regions[r].pFree;
    h.(regions := h.regions[r := h.regions[r].(pFree := h.trampolines[p].pbRemain)],
       trampolines := h.trampolines[p := DEBUG_FILL])
  }

  function ViewTake(v: View, r: nat): View
    requires r in v.free && v.free[r] != []
  {
    v.(free := v.free[r := v.free[r][1..]], live := v.live + {v.free[r][0]})
  }

  lemma TakeHere(h: Heap, v: View, r: nat)
    requires IsRegion(r) && r in v.free && RegionRep(h, v, r) && v.free[r] != []
    ensures h.regions[r].pFree == v.free[r][0] && v.free[r][0] in h.trampolines
    ensures RegionRep(HeapTake(h, r), ViewTake(v, r), r)
  {
    hide IsSlot, SlotsFrom;
    var s, p := v.free[r], v.free[r][0];
    var h1, v1 := HeapTake(h, r), ViewTake(v, r);
    FreeChainMembers(h.trampolines, h.regions[r].pFree, s);
    var i := SlotIndex(r, p, 2);
    assert s == [p] + s[1..];
    assert p !in s[1..];
    FreeChainFrame(h.trampolines, h1.trampolines, h.trampolines[p].pbRemain, s[1..]);
  }

  lemma TakeChanges(h: Heap, v: View, r: nat)
    requires IsRegion(r) && r in v.order && r in v.free && RegionRep(h, v, r) && v.free[r] != []
    requires h.regions[r].pFree == v.free[r][0] && v.free[r][0] in h.trampolines
    ensures OneSlotChanged(h, v, HeapTake(h, r), ViewTake(v, r), r, v.free[r][0])
  {
    hide IsSlot, SlotsFrom, Usable, RegionOf, IsRegion, FreeChain;
    FreeSlot(r, v.free[r], v.live, v.free[r][0]);
  }

  /** Taking the first free slot of a region: it was free, it becomes live, and nothing else moves. */
  lemma TakeKeeps(h: Heap, v: View, r: nat)
    requires Represents(h, v) && r in v.order && v.free[r] != []
    ensures r in h.regions && h.regions[r].pFree == v.free[r][0] && v.free[r][0] in h.trampolines
    ensures Represents(HeapTake(h, r), ViewTake(v, r))
  {
    hide *;
    RegionKnown(h, v, r);
    TakeHere(h, v, r);
    TakeChanges(h, v, r);
    OneSlotChangedKeeps(h, v, HeapTake(h, r), ViewTake(v, r), r, v.free[r][0]);
  }

  function HeapFree(h: Heap, p: nat): Heap
    requires RegionOf(p) in h.regions
  {
    var r := RegionOf(p);
    h.(regions := h.regions[r := h.regions[r].(pFree := p)],
       trampolines := h.trampolines[p := ZEROED.(pbRemain := h.regions[r].pFree)])
  }

  function ViewFree(v: View, p: nat): View
    requires RegionOf(p) in v.free
  {
    v.(free := v.free[RegionOf(p) := [p] + v.free[RegionOf(p)]], live := v.live - {p})
  }

  lemma FreeHere(h: Heap, v: View, r: nat, p: nat)
    requires IsRegion(r) && r == RegionOf(p) && Usable(r, p) && p in v.live && r in v.free && RegionRep(h, v, r)
    ensures RegionRep(HeapFree(h, p), ViewFree(v, p), r)
  {
    hide IsSlot, SlotsFrom;
    var s := v.free[r];
    var h1, v1 := HeapFree(h, p), ViewFree(v, p);
    FreeChainMembers(h.trampolines, h.regions[r].pFree, s);
    FreeChainFrame(h.trampolines, h1.trampolines, h.regions[r].pFree, s);
    var i := SlotIndex(r, p, 2);
    assert v1.free[r][1..] == s;
  }

  lemma FreeChanges(h: Heap, v: View, r: nat, p: nat)
    requires r == RegionOf(p) && r in v.order && Usable(r, p) && p in v.live && p in h.trampolines && r in v.free && r in h.regions
    ensures OneSlotChanged(h, v, HeapFree(h, p), ViewFree(v, p), r, p)
  {}

  /** Giving back a live slot: it goes to the front of its region's free list. */
  lemma FreeKeeps(h: Heap, v: View, p: nat)
    requires Represents(h, v) && p in v.live
    ensures RegionOf(p) in h.regions && RegionOf(p) in v.free
    ensures Represents(HeapFree(h, p), ViewFree(v, p))
  {
    hide *;
    var r := RegionOf(p);
    LiveSlot(h, v, p);
    RegionKnown(h, v, r);
    FreeHere(h, v, r, p);
    FreeChanges(h, v, r, p);
    OneSlotChangedKeeps(h, v, HeapFree(h, p), ViewFree(v, p), r, p);
  }

  lemma RegionKnown(h: Heap, v: View, r: nat)
    requires Represents(h, v) && r in v.order
    ensures IsRegion(r) && r in v.free && r in h.regions && RegionRep(h, v, r)
  {
    assert RegionRep(h, v, r);
  }

  lemma LiveSlot(h: Heap, v: View, p: nat)
    requires Represents(h, v) && p in v.live
    ensures p in h.trampolines && RegionOf(p) in v.order && Usable(RegionOf(p), p)
  {
    var i := SlotIndex(RegionOf(p), p, 2);
    assert RegionRep(h, v, RegionOf(p));
  }
}
