/** What every allocation and release keeps (detours/src/detours.cpp:1398-1519). */
module TrampolineConservation {
  import opened TrampolineHeap
  import opened TrampolineRegions
  import opened TrampolineAllocator

  /** A slot that is handed out was not in use, lies between the bounds and overlaps no slot in use;
    * nothing is handed out exactly when no region serves and a new one cannot be had in reach.
    */
  lemma AllocationIsSafe(h: Heap, v: View, pLo: nat, pHi: nat, pNew: nat)
    requires Represents(h, v) && Known(v, h.pRegion) && (pNew != 0 ==> IsRegion(pNew) && pNew !in v.order)
    ensures var (v', p) := Allocated(v, h.pRegion, pLo, pHi, pNew);
      && v'.live == (if p == 0 then v.live else v.live + {p})
      && (p != 0 ==> p !in v.live && pLo <= p <= pHi && IsRegion(RegionOf(p)) && Usable(RegionOf(p), p))
      && (p != 0 ==> forall q | q in v.live :: p + SIZEOF_TRAMPOLINE <= q || q + SIZEOF_TRAMPOLINE <= p)
      && (p == 0 <==> (forall r | r in v.order :: !Serves(v, r, pLo, pHi)) && (pNew == 0 || !(pLo <= Slot(pNew, 2) <= pHi)))
  {
    hide Represents, SlotsFrom, IsSlot, IsRegion;
    var (v', p) := Allocated(v, h.pRegion, pLo, pHi, pNew);
    var r := Chosen(v, h.pRegion, pLo, pHi);
    ChosenServes(h, v, pLo, pHi);
    if r != 0 {
      FrontOf(h, v, r);
      FrontIsFree(h, v, r);
      RegionKnown(h, v, r);
      FreeSlot(r, v.free[r], v.live, p);
      ApartFromLive(h, v, r, p);
    } else if pNew != 0 {
      GrowFront(v, pNew);
      NewSlot(h, v, pNew);
      ApartFromLive(h, v, pNew, Slot(pNew, 2));
    }
  }

  lemma ChosenServes(h: Heap, v: View, pLo: nat, pHi: nat)
    requires Represents(h, v) && Known(v, h.pRegion)
    ensures Chosen(v, h.pRegion, pLo, pHi) != 0 ==> Serves(v, Chosen(v, h.pRegion, pLo, pHi), pLo, pHi)
    ensures Chosen(v, h.pRegion, pLo, pHi) == 0 <==> forall r | r in v.order :: !Serves(v, r, pLo, pHi)
  {
    hide Represents, Serves;
    FirstFitServes(v, v.order, pLo, pHi);
  }

  lemma NewSlot(h: Heap, v: View, r: nat)
    requires Represents(h, v) && IsRegion(r) && r !in v.order
    ensures Slot(r, 2) !in v.live && Usable(r, Slot(r, 2)) && IsSlot(r, Slot(r, 2), 0) && RegionOf(Slot(r, 2)) == r && Slot(r, 2) != 0
  {
    SlotIsSlot(r, 2, 0);
    SlotRegion(r, Slot(r, 2));
  }

  lemma ApartFromLive(h: Heap, v: View, r: nat, p: nat)
    requires Represents(h, v) && IsRegion(r) && IsSlot(r, p, 0) && p !in v.live
    ensures forall q | q in v.live :: p + SIZEOF_TRAMPOLINE <= q || q + SIZEOF_TRAMPOLINE <= p
  {
    forall q | q in v.live
      ensures p + SIZEOF_TRAMPOLINE <= q || q + SIZEOF_TRAMPOLINE <= p
    {
      SlotsDisjoint(r, p, RegionOf(q), q);
    }
  }

  // -------------------------------------------------------------------- Counting

  /** The slots of a region that are in use. */
  function LiveIn(v: View, r: nat): set<nat> { set p | p in v.live && RegionOf(p) == r }

  function Elements(s: seq<nat>): set<nat> { set x | x in s }

  lemma {:induction false} CountDistinct(s: seq<nat>)
    requires NoDuplicates(s)
    ensures |Elements(s)| == |s|
  {
    if s != [] {
      CountDistinct(s[1..]);
      assert Elements(s) == Elements(s[1..]) + {s[0]};
    }
  }

  lemma {:induction false} SlotsFromLength(r: nat, i: nat)
    requires i <= DETOUR_TRAMPOLINES_PER_REGION
    ensures |SlotsFrom(r, i)| == DETOUR_TRAMPOLINES_PER_REGION - i
    decreases DETOUR_TRAMPOLINES_PER_REGION - i
  {
    if i < DETOUR_TRAMPOLINES_PER_REGION {
      SlotsFromLength(r, i + 1);
    }
  }

  lemma PartitionAdds(free: set<nat>, live: set<nat>, all: set<nat>)
    requires free !! live && free + live == all
    ensures |free| + |live| == |all|
  {
    assert all - free == live;
  }

  /** In every region the free slots, the slots in use and the two that are never handed out add up. */
  lemma SlotsConserved(h: Heap, v: View, r: nat)
    requires Represents(h, v) && r in v.order
    ensures r in v.free && |v.free[r]| + |LiveIn(v, r)| + 2 == 355
  {
    hide Represents, SlotsFrom, RegionRep, IsRegion;
    RegionKnown(h, v, r);
    assert Partitioned(r, v.free[r], v.live) by { RegionPartitioned(h, v, r); }
    SlotsFromLength(r, 2);
    SlotsFromAre(r, 2);
    CountDistinct(v.free[r]);
    CountDistinct(SlotsFrom(r, 2));
    PartitionIs(h, v, r);
    PartitionAdds(Elements(v.free[r]), LiveIn(v, r), Elements(SlotsFrom(r, 2)));
  }

  lemma RegionPartitioned(h: Heap, v: View, r: nat)
    requires r in v.free && RegionRep(h, v, r)
    ensures Partitioned(r, v.free[r], v.live)
  {}

  lemma PartitionIs(h: Heap, v: View, r: nat)
    requires Represents(h, v) && r in v.order && r in v.free && IsRegion(r) && Partitioned(r, v.free[r], v.live)
    ensures Elements(v.free[r]) !! LiveIn(v, r) && Elements(v.free[r]) + LiveIn(v, r) == Elements(SlotsFrom(r, 2))
  {
    hide SlotsFrom, RegionRep, IsSlot, RegionChain;
    SlotsFromAre(r, 2);
    forall p
      ensures p in Elements(v.free[r]) + LiveIn(v, r) <==> IsSlot(r, p, 2)
    {
      if IsSlot(r, p, 2) {
        var i := SlotIndex(r, p, 2);
        UsableIsSlot(r, p);
        SlotRegion(r, p);
      }
    }
  }

  // ---------------------------------------------------------------- Freeing twice

  lemma {:induction false} NoChainThroughSelf(ts: map<nat, Trampoline>, p: nat, s: seq<nat>)
    requires p != 0 && p in ts && ts[p].pbRemain == p
    ensures !FreeChain(ts, p, s)
    decreases |s|
  {
    if s != [] {
      NoChainThroughSelf(ts, p, s[1..]);
    }
  }

  /** Freeing a slot twice closes its region's free list into a cycle, so that no list of free slots
    * represents it any more: this is why a trampoline may be removed once per transaction only.
    */
  lemma FreeingTwiceBreaks(h: Heap, v: View, p: nat, w: View)
    requires Represents(h, v) && p in v.live && RegionOf(p) in w.order
    requires RegionOf(p) in h.regions && RegionOf(p) in HeapFree(h, p).regions
    ensures !Represents(HeapFree(HeapFree(h, p), p), w)
  {
    LiveSlot(h, v, p);
    var h', r := HeapFree(HeapFree(h, p), p), RegionOf(p);
    assert p != 0;
    if r in w.free {
      NoChainThroughSelf(h'.trampolines, p, w.free[r]);
      assert h'.regions[r].pFree == p;
    }
  }
}
