/** Adding a region to the allocator's list and dropping one from it
  * (detours/src/detours.cpp:1436-1460, 1478-1519).
  */
module TrampolineRegions {
  import opened TrampolineHeap

  // ----------------------------------------------------------- Adding a region

  /** The slots of a region whose pages the system has just handed out. */
  function ZeroedSlots(region: nat): (m: map<nat, Trampoline>)
    ensures forall p | p in m :: m[p] == ZEROED
  {
    map p | region <= p < region + DETOUR_REGION_SIZE && IsSlot(region, p, 0) :: ZEROED
  }

  function ViewGrow(v: View, r: nat): View {
    v.(order := [r] + v.order, free := v.free[r := SlotsFrom(r, 2)])
  }

  /** The heap after a new region has been put at the front and its free list threaded. */
  ghost predicate Grown(h: Heap, h': Heap, r: nat) {
    && h'.pRegions == r && h'.pRegion == r
    && h'.regions == h.regions[r := DETOUR_REGION(DETOUR_REGION_SIGNATURE, h.pRegions, Slot(r, 2))]
    && h'.trampolines.Keys == h.trampolines.Keys + ZeroedSlots(r).Keys
    && (forall p | p in h.trampolines && p !in ZeroedSlots(r) :: h'.trampolines[p] == h.trampolines[p])
    && FreeChain(h'.trampolines, Slot(r, 2), SlotsFrom(r, 2))
    && (forall p | p in ZeroedSlots(r) :: h'.trampolines[p].cbRestore == 0)
    && h'.trampolines[Slot(r, 0)] == ZEROED && h'.trampolines[Slot(r, 1)] == ZEROED
  }

  lemma ZeroedSlotsAre(r: nat, p: nat)
    requires IsRegion(r)
    ensures p in ZeroedSlots(r) <==> RegionOf(p) == r && IsSlot(r, p, 0)
  {
    if IsSlot(r, p, 0) {
      SlotRegion(r, p);
    }
  }

  lemma FreshPartitioned(r: nat, live: set<nat>)
    requires IsRegion(r) && forall p | p in live :: RegionOf(p) != r
    ensures Partitioned(r, SlotsFrom(r, 2), live)
    ensures forall p | p in SlotsFrom(r, 2) :: p in ZeroedSlots(r)
  {
    hide IsSlot, SlotsFrom, RegionOf, ZeroedSlots, IsRegion;
    SlotsFromAre(r, 2);
    forall p | IsSlot(r, p, 2)
      ensures p in ZeroedSlots(r) && p !in live && Usable(r, p)
    {
      UsableIsSlot(r, p);
      SlotRegion(r, p);
      ZeroedSlotsAre(r, p);
    }
    forall i | 2 <= i < DETOUR_TRAMPOLINES_PER_REGION
      ensures IsSlot(r, Slot(r, i), 2)
    {
      SlotIsSlot(r, i, 2);
    }
  }

  lemma AllSlotsZeroed(r: nat)
    requires IsRegion(r)
    ensures forall i | 0 <= i < DETOUR_TRAMPOLINES_PER_REGION :: Slot(r, i) in ZeroedSlots(r)
  {
    hide IsSlot, ZeroedSlots;
    forall i | 0 <= i < DETOUR_TRAMPOLINES_PER_REGION
      ensures Slot(r, i) in ZeroedSlots(r)
    {
      SlotIsSlot(r, i, 0);
      SlotRegion(r, Slot(r, i));
      ZeroedSlotsAre(r, Slot(r, i));
    }
  }

  lemma GrowHere(h: Heap, v: View, h': Heap, r: nat)
    requires IsRegion(r) && Grown(h, h', r)
    requires forall p | p in v.live :: RegionOf(p) != r
    ensures RegionRep(h', ViewGrow(v, r), r)
  {
    hide IsSlot, SlotsFrom, FreeChain, ZeroedSlots, Partitioned, RegionOf, Slot;
    FreshPartitioned(r, v.live);
    AllSlotsZeroed(r);
  }

  lemma UsableIsSlot(r: nat, p: nat)
    requires IsSlot(r, p, 2)
    ensures IsSlot(r, p, 0)
  {}

  lemma GrowOthers(h: Heap, v: View, h': Heap, r: nat, r': nat)
    requires IsRegion(r) && Grown(h, h', r) && IsRegion(r') && r' != r && r' in v.free && r' in h.regions && RegionRep(h, v, r')
    ensures RegionRep(h', ViewGrow(v, r), r')
  {
    hide FreeChain, IsSlot, Partitioned, RegionRep, RegionOf, SlotsFrom, ZeroedSlots;
    forall q | RegionOf(q) == r' && q in h.trampolines
      ensures q in h'.trampolines && h'.trampolines[q] == h.trampolines[q]
    {
      ZeroedSlotsAre(r, q);
    }
    RegionRepFrame(h, v, h', ViewGrow(v, r), r');
  }

  lemma GrowChain(h: Heap, v: View, h': Heap, r: nat)
    requires Shaped(h, v) && IsRegion(r) && r != 0 && Grown(h, h', r) && r !in v.order
    ensures RegionChain(h'.regions, h'.pRegions, ViewGrow(v, r).order)
  {
    hide FreeChain, SlotsFrom, IsSlot, Usable, RegionOf, ZeroedSlots, IsRegion, Slot;
    RegionChainMembers(h.regions, h.pRegions, v.order);
    RegionChainFrame(h.regions, h'.regions, h.pRegions, v.order);
    assert ViewGrow(v, r).order[1..] == v.order;
  }

  lemma GrowSlots(h: Heap, v: View, h': Heap, r: nat, p: nat)
    requires Shaped(h, v) && IsRegion(r) && Grown(h, h', r) && p in h'.trampolines
    ensures (RegionOf(p) == r || RegionOf(p) in v.order) && IsSlot(RegionOf(p), p, 0)
  {
    hide FreeChain, RegionChain, SlotsFrom, IsSlot, Usable, RegionOf, ZeroedSlots, IsRegion, Slot;
    ZeroedSlotsAre(r, p);
  }

  lemma GrowOrder(v: View, r: nat)
    requires r !in v.order && NoDuplicates(v.order)
    ensures NoDuplicates(ViewGrow(v, r).order) && forall x :: x in ViewGrow(v, r).order <==> x == r || x in v.order
  {
    hide SlotsFrom;
  }

  lemma GrowShape(h: Heap, v: View, h': Heap, r: nat)
    requires Shaped(h, v) && IsRegion(r) && r != 0 && Grown(h, h', r) && r !in v.order
    ensures Shaped(h', ViewGrow(v, r))
  {
    GrowChain(h, v, h', r);
    GrowOrder(v, r);
    forall p | p in h'.trampolines
      ensures (RegionOf(p) == r || RegionOf(p) in v.order) && IsSlot(RegionOf(p), p, 0)
    {
      GrowSlots(h, v, h', r, p);
    }
    hide FreeChain, RegionChain, SlotsFrom, IsSlot, Usable, RegionOf, ZeroedSlots, IsRegion, Slot, NoDuplicates;
    assert ViewGrow(v, r).live == v.live;
  }

  /** A new region adds its usable slots to the free ones and changes nothing else. */
  lemma GrowKeeps(h: Heap, v: View, h': Heap, r: nat)
    requires Represents(h, v) && IsRegion(r) && r !in v.order && Grown(h, h', r)
    ensures Represents(h', ViewGrow(v, r))
  {
    hide Grown, RegionRep, Shaped, RegionOf, IsSlot, Usable, RegionChain, FreeChain, SlotsFrom;
    GrowShape(h, v, h', r);
    LiveRegions(h, v);
    GrowHere(h, v, h', r);
    forall r' | r' in v.order
      ensures RegionRep(h', ViewGrow(v, r), r')
    {
      RegionKnown(h, v, r');
      GrowOthers(h, v, h', r, r');
    }
  }

  lemma LiveRegions(h: Heap, v: View)
    requires Represents(h, v)
    ensures forall p | p in v.live :: RegionOf(p) in v.order
    ensures forall r :: r in v.free <==> r in v.order
  {}

  // --------------------------------------------------------- Dropping a region

  /** What the pointer to a region points from: the list head or a region's `pNext`. */
  datatype Link = Head | Next(region: nat)

  function Follow(h: Heap, link: Link): nat
    requires link.Next? ==> link.region in h.regions
  {
    match link
    case Head => h.pRegions
    case Next(q) => h.regions[q].pNext
  }

  function Relink(h: Heap, link: Link, to: nat): Heap
    requires link.Next? ==> link.region in h.regions
  {
    match link
    case Head => h.(pRegions := to)
    case Next(q) => h.(regions := h.regions[q := h.regions[q].(pNext := to)])
  }

  /** VirtualFree: the region's memory is gone. */
  function Release(h: Heap, r: nat): Heap {
    h.(regions := h.regions - {r}, trampolines := h.trampolines - ZeroedSlots(r).Keys)
  }

  /** The pointer that a walk over `kept` has reached. */
  function LinkAfter(kept: seq<nat>): Link { if kept == [] then Head else Next(kept[|kept| - 1]) }

  function ViewDrop(v: View, r: nat, kept: seq<nat>, rest: seq<nat>): View {
    v.(order := kept + rest, free := v.free - {r})
  }

  /** After a walk over `kept` the pointer leads to the rest of the list. */
  lemma {:induction false} FollowAfter(rs: map<nat, DETOUR_REGION>, head: nat, kept: seq<nat>, rest: seq<nat>)
    requires RegionChain(rs, head, kept + rest)
    ensures forall q | q in kept :: q in rs
    ensures RegionChain(rs, if kept == [] then head else rs[kept[|kept| - 1]].pNext, rest)
    decreases |kept|
  {
    if kept == [] {
      assert kept + rest == rest;
    } else {
      assert (kept + rest)[1..] == kept[1..] + rest;
      FollowAfter(rs, rs[head].pNext, kept[1..], rest);
    }
  }

  /** Redirecting the last pointer of `kept` replaces the rest of the list. */
  lemma {:induction false} Splice(rs: map<nat, DETOUR_REGION>, rs': map<nat, DETOUR_REGION>, head: nat, kept: seq<nat>, rest: seq<nat>, rest': seq<nat>)
    requires RegionChain(rs, head, kept + rest) && kept != []
    requires forall q | q in kept :: q in rs'
    requires forall k | 0 <= k < |kept| - 1 :: kept[k] in rs && rs'[kept[k]].pNext == rs[kept[k]].pNext
    requires RegionChain(rs', rs'[kept[|kept| - 1]].pNext, rest')
    ensures RegionChain(rs', head, kept + rest')
    decreases |kept|
  {
    assert (kept + rest)[1..] == kept[1..] + rest;
    assert (kept + rest')[1..] == kept[1..] + rest';
    assert head == kept[0] && (kept + rest')[0] == head;
    if |kept| == 1 {
      assert kept[1..] + rest' == rest';
    } else {
      assert forall k | 0 <= k < |kept[1..]| - 1 :: kept[1..][k] == kept[k + 1];
      Splice(rs, rs', rs[head].pNext, kept[1..], rest, rest');
    }
  }

  lemma KeptChain(h: Heap, v: View, r: nat, kept: seq<nat>, rest: seq<nat>)
    requires Shaped(h, v) && v.order == kept + ([r] + rest)
    ensures r in h.regions && forall q | q in kept + rest :: q in h.regions && q != r
    ensures LinkAfter(kept).Next? ==> LinkAfter(kept).region in h.regions
    ensures Follow(h, LinkAfter(kept)) == r
    ensures RegionChain(h.regions, h.regions[r].pNext, rest)
  {
    FollowAfter(h.regions, h.pRegions, kept, [r] + rest);
    assert ([r] + rest)[1..] == rest;
    RegionChainMembers(h.regions, h.pRegions, v.order);
    DroppedIsApart(v.order, r, kept, rest);
  }

  lemma DroppedIsApart(order: seq<nat>, r: nat, kept: seq<nat>, rest: seq<nat>)
    requires NoDuplicates(order) && order == kept + ([r] + rest)
    ensures NoDuplicates(kept + rest) && r !in kept + rest
    ensures forall q | q in kept :: q !in rest
    ensures forall i, j | 0 <= i < j < |kept| :: kept[i] != kept[j]
    ensures forall q :: q in order <==> q == r || q in kept + rest
  {
    var k := |kept|;
    assert forall i | 0 <= i < k :: order[i] == kept[i];
    assert order[k] == r;
    assert forall i | 0 <= i < |rest| :: order[k + 1 + i] == rest[i];
  }

  function Dropped(h: Heap, r: nat, kept: seq<nat>): Heap
    requires r in h.regions && (LinkAfter(kept).Next? ==> LinkAfter(kept).region in h.regions)
  {
    Release(Relink(h, LinkAfter(kept), h.regions[r].pNext), r).(pRegion := 0)
  }

  lemma DropChain(h: Heap, v: View, r: nat, kept: seq<nat>, rest: seq<nat>)
    requires Shaped(h, v) && v.order == kept + ([r] + rest)
    requires r in h.regions && (LinkAfter(kept).Next? ==> LinkAfter(kept).region in h.regions)
    ensures RegionChain(Dropped(h, r, kept).regions, Dropped(h, r, kept).pRegions, kept + rest)
  {
    hide RegionChain, NoDuplicates, Shaped, Dropped;
    KeptChain(h, v, r, kept, rest);
    assert NoDuplicates(v.order) by { ShapedOrder(h, v); }
    DroppedIsApart(v.order, r, kept, rest);
    DroppedLinks(h, r, kept, rest);
    var rs' := Dropped(h, r, kept).regions;
    RegionChainFrame(h.regions, rs', h.regions[r].pNext, rest);
    if kept == [] {
      assert kept + rest == rest;
    } else {
      assert RegionChain(h.regions, h.pRegions, kept + ([r] + rest)) by { ShapedOrder(h, v); }
      Splice(h.regions, rs', h.pRegions, kept, [r] + rest, rest);
    }
  }

  lemma ShapedOrder(h: Heap, v: View)
    requires Shaped(h, v)
    ensures NoDuplicates(v.order) && RegionChain(h.regions, h.pRegions, v.order)
  {}

  /** After the drop the last kept link leads to what followed the region; the others are as before. */
  lemma DroppedLinks(h: Heap, r: nat, kept: seq<nat>, rest: seq<nat>)
    requires r in h.regions && (LinkAfter(kept).Next? ==> LinkAfter(kept).region in h.regions)
    requires (forall q | q in kept + rest :: q in h.regions && q != r) && (forall q | q in kept :: q !in rest)
    requires forall i, j | 0 <= i < j < |kept| :: kept[i] != kept[j]
    ensures var h' := Dropped(h, r, kept);
      && (forall q | q in rest :: q in h'.regions && h'.regions[q].pNext == h.regions[q].pNext)
      && (forall q | q in kept :: q in h'.regions)
      && (forall k | 0 <= k < |kept| - 1 :: kept[k] in h.regions && h'.regions[kept[k]].pNext == h.regions[kept[k]].pNext)
      && (if kept == [] then h'.pRegions == h.regions[r].pNext
          else h'.pRegions == h.pRegions && h'.regions[kept[|kept| - 1]].pNext == h.regions[r].pNext)
  {
    hide ZeroedSlots;
  }

  lemma DropShape(h: Heap, v: View, r: nat, kept: seq<nat>, rest: seq<nat>)
    requires Shaped(h, v) && v.order == kept + ([r] + rest)
    requires r in h.regions && (LinkAfter(kept).Next? ==> LinkAfter(kept).region in h.regions)
    requires forall p | p in v.live :: RegionOf(p) != r
    ensures Shaped(Dropped(h, r, kept), ViewDrop(v, r, kept, rest))
  {
    hide RegionChain, RegionOf, IsSlot, Usable, ZeroedSlots, IsRegion;
    DropChain(h, v, r, kept, rest);
    DroppedIsApart(v.order, r, kept, rest);
    var h' := Dropped(h, r, kept);
    forall p | p in h'.trampolines
      ensures RegionOf(p) in kept + rest && IsSlot(RegionOf(p), p, 0)
    {
      assert IsRegion(r);
      ZeroedSlotsAre(r, p);
    }
  }

  lemma DropOthers(h: Heap, v: View, r: nat, kept: seq<nat>, rest: seq<nat>, r': nat)
    requires r in h.regions && (LinkAfter(kept).Next? ==> LinkAfter(kept).region in h.regions)
    requires IsRegion(r) && IsRegion(r') && r' != r && r' in v.free && RegionRep(h, v, r')
    ensures RegionRep(Dropped(h, r, kept), ViewDrop(v, r, kept, rest), r')
  {
    hide RegionRep, RegionOf, IsSlot, ZeroedSlots;
    forall q | RegionOf(q) == r' && q in h.trampolines
      ensures q !in ZeroedSlots(r)
    {
      ZeroedSlotsAre(r, q);
    }
    RegionRepKnown(h, v, r');
    RegionRepFrame(h, v, Dropped(h, r, kept), ViewDrop(v, r, kept, rest), r');
  }

  /** Releasing a region without live slots removes it from the list and changes nothing else. */
  lemma DropKeeps(h: Heap, v: View, r: nat, kept: seq<nat>, rest: seq<nat>)
    requires Represents(h, v) && v.order == kept + ([r] + rest)
    requires forall p | p in v.live :: RegionOf(p) != r
    ensures r in h.regions && (LinkAfter(kept).Next? ==> LinkAfter(kept).region in h.regions)
    ensures Follow(h, LinkAfter(kept)) == r
    ensures Represents(Dropped(h, r, kept), ViewDrop(v, r, kept, rest))
  {
    hide RegionRep, Shaped, NoDuplicates, RegionOf, IsRegion, Dropped, Relink, Follow, LinkAfter;
    var v' := ViewDrop(v, r, kept, rest);
    KeptChain(h, v, r, kept, rest);
    DropShape(h, v, r, kept, rest);
    assert r in v.order;
    RegionKnown(h, v, r);
    forall r' | r' in v'.order
      ensures r' in v'.free && RegionRep(Dropped(h, r, kept), v', r')
    {
      assert r' in v.order && r' != r;
      RegionKnown(h, v, r');
      DropOthers(h, v, r, kept, rest, r');
    }
  }
}
