/** `detour_alloc_trampoline`, `detour_free_trampoline` and the release of idle regions
  * (detours/src/detours.cpp:1398-1519).
  */
module TrampolineAllocator {
  import opened TrampolineHeap
  import opened TrampolineRegions

  // -------------------------------------------------------------- What is meant

  /** The region has a free slot between the bounds, at the front of its list. */
  predicate Serves(v: View, r: nat, pLo: nat, pHi: nat)
    requires r in v.free
  {
    v.free[r] != [] && pLo <= v.free[r][0] <= pHi
  }

  /** The first region of `s` that serves, or 0. */
  function FirstFit(v: View, s: seq<nat>, pLo: nat, pHi: nat): (r: nat)
    requires forall x | x in s :: x in v.free
    ensures r == 0 || r in s
  {
    if s == [] then 0
    else if Serves(v, s[0], pLo, pHi) then s[0]
    else FirstFit(v, s[1..], pLo, pHi)
  }

  /** The region an allocation comes from: the default region if it serves, else the first that
    * does; 0 if none does. */
  ghost function Chosen(v: View, pRegion: nat, pLo: nat, pHi: nat): (r: nat)
    requires Known(v, pRegion)
    ensures r == 0 || r in v.order
  {
    var first := if pRegion == 0 && v.order != [] then v.order[0] else pRegion;
    if first != 0 && Serves(v, first, pLo, pHi) then first else FirstFit(v, v.order, pLo, pHi)
  }

  lemma {:induction false} FirstFitServes(v: View, s: seq<nat>, pLo: nat, pHi: nat)
    requires forall x | x in s :: x in v.free && x != 0
    ensures FirstFit(v, s, pLo, pHi) != 0 ==> Serves(v, FirstFit(v, s, pLo, pHi), pLo, pHi)
    ensures FirstFit(v, s, pLo, pHi) == 0 <==> forall x | x in s :: !Serves(v, x, pLo, pHi)
  {
    if s != [] && !Serves(v, s[0], pLo, pHi) {
      FirstFitServes(v, s[1..], pLo, pHi);
    }
  }

  /** What an allocation returns and leaves; `pNew` is the region the system can supply, or 0. */
  ghost function Allocated(v: View, pRegion: nat, pLo: nat, pHi: nat, pNew: nat): (View, nat)
    requires Known(v, pRegion)
  {
    var r := Chosen(v, pRegion, pLo, pHi);
    if r != 0 && v.free[r] != [] then (ViewTake(v, r), v.free[r][0])
    else if pNew == 0 then (v, 0)
    else if pLo <= Slot(pNew, 2) <= pHi then (ViewTake(ViewGrow(v, pNew), pNew), Slot(pNew, 2))
    else (ViewGrow(v, pNew), 0)
  }

  /** The default region after an allocation. */
  ghost function NextDefault(v: View, pRegion: nat, pLo: nat, pHi: nat, pNew: nat): nat
    requires Known(v, pRegion)
  {
    if Chosen(v, pRegion, pLo, pHi) != 0 then Chosen(v, pRegion, pLo, pHi) else pNew
  }

  ghost predicate InUse(r: nat, live: set<nat>) { exists p | p in live :: RegionOf(p) == r }

  /** Regions with a slot in use, in their order. */
  ghost function Occupied(order: seq<nat>, live: set<nat>): (s: seq<nat>)
    ensures forall r :: r in s <==> r in order && InUse(r, live)
  {
    if order == [] then []
    else if InUse(order[0], live) then [order[0]] + Occupied(order[1..], live)
    else Occupied(order[1..], live)
  }

  ghost function Pruned(v: View): View {
    var order := Occupied(v.order, v.live);
    v.(order := order, free := map r | r in v.free && r in order :: v.free[r])
  }

  /** A slot in use that resumes outside its region. */
  predicate Remote(t: Trampoline, region: nat) {
    t.pbRemain != 0 && !(region <= t.pbRemain < region + DETOUR_REGION_SIZE)
  }

  /** Every slot in use resumes outside its region, as one filled for a function does. */
  ghost predicate Settled(h: Heap, v: View) {
    forall p | p in v.live && p in h.trampolines :: Remote(h.trampolines[p], RegionOf(p))
  }

  lemma FreeIsNotRemote(ts: map<nat, Trampoline>, r: nat, head: nat, free: seq<nat>, live: set<nat>, p: nat)
    requires IsRegion(r) && FreeChain(ts, head, free) && Partitioned(r, free, live) && p in free
    ensures p in ts && !Remote(ts[p], r)
  {
    hide IsSlot, FreeChain;
    FreeChainMembers(ts, head, free);
    if ts[p].pbRemain != 0 {
      FreeSlot(r, free, live, ts[p].pbRemain);
      SlotRegion(r, ts[p].pbRemain);
    }
  }

  /** The slots of a region that are not in use do not make it look occupied. */
  lemma IdleSlot(h: Heap, v: View, r: nat, i: nat)
    requires Represents(h, v) && r in v.order && i < DETOUR_TRAMPOLINES_PER_REGION && Slot(r, i) !in v.live
    ensures Slot(r, i) in h.trampolines && !Remote(h.trampolines[Slot(r, i)], r)
  {
    hide Represents, IsSlot, SlotsFrom, FreeChain, IsRegion;
    RegionKnown(h, v, r);
    if 2 <= i {
      FreeIsNotRemote(h.trampolines, r, h.regions[r].pFree, v.free[r], v.live, Slot(r, i));
    } else {
      assert i == 0 || i == 1;
    }
  }

  lemma LiveSlotIndex(h: Heap, v: View, p: nat) returns (i: nat)
    requires Represents(h, v) && p in v.live
    ensures i < DETOUR_TRAMPOLINES_PER_REGION && p == Slot(RegionOf(p), i) && p in h.trampolines
  {
    LiveSlot(h, v, p);
    i := SlotIndex(RegionOf(p), p, 2);
  }

  lemma ThreadStart(ts: map<nat, Trampoline>, r: nat)
    ensures FreeChain(ts, 0, SlotsFrom(r, DETOUR_TRAMPOLINES_PER_REGION))
  {}

  /** One step of threading puts slot `i` in front of the slots after it. */
  lemma ThreadStep(ts: map<nat, Trampoline>, r: nat, i: nat, pFree: nat)
    requires i < DETOUR_TRAMPOLINES_PER_REGION && Slot(r, i) in ts
    requires FreeChain(ts, pFree, SlotsFrom(r, i + 1))
    ensures FreeChain(ts[Slot(r, i) := ts[Slot(r, i)].(pbRemain := pFree)], Slot(r, i), SlotsFrom(r, i))
  {
    hide FreeChain, IsSlot;
    assert SlotsFrom(r, i) == [Slot(r, i)] + SlotsFrom(r, i + 1);
    assert !IsSlot(r, Slot(r, i), i + 1) by { BelowFirst(r, i); }
    SlotsFromAre(r, i + 1);
    FreeChainPush(ts, pFree, SlotsFrom(r, i + 1), Slot(r, i));
  }

  lemma BelowFirst(r: nat, i: nat)
    ensures !IsSlot(r, Slot(r, i), i + 1)
  {}

  lemma FreeChainPush(ts: map<nat, Trampoline>, head: nat, s: seq<nat>, p: nat)
    requires FreeChain(ts, head, s) && p in ts && p != 0 && p !in s
    ensures FreeChain(ts[p := ts[p].(pbRemain := head)], p, [p] + s)
  {
    FreeChainMembers(ts, head, s);
    FreeChainFrame(ts, ts[p := ts[p].(pbRemain := head)], head, s);
    assert ([p] + s)[1..] == s;
  }

  /** The slots in use keep their contents. */
  ghost predicate LiveKept(h: Heap, v: View, h': Heap) {
    forall p | p in v.live :: p in h.trampolines && p in h'.trampolines && h'.trampolines[p] == h.trampolines[p]
  }

  lemma LiveKeptTwice(h: Heap, v: View, h': Heap, v': View, h'': Heap)
    requires LiveKept(h, v, h') && LiveKept(h', v', h'') && v.live <= v'.live
    ensures LiveKept(h, v, h'')
  {}

  // --------------------------------------------------------------- The variables

  class Regions {
    var s_pRegions: nat
    var s_pRegion: nat
    var regions: map<nat, DETOUR_REGION>
    var trampolines: map<nat, Trampoline>
    ghost var view: View

    function State(): Heap reads this { Heap(s_pRegions, s_pRegion, regions, trampolines) }

    ghost predicate Valid() reads this { Represents(State(), view) }

    constructor ()
      ensures Valid() && view == View([], map[], {})
    {
      s_pRegions, s_pRegion, regions, trampolines := 0, 0, map[], map[];
      view := View([], map[], {});
    }

    /** Threads the free list of a new region through its slots, from the last down to slot 2. */
    method ThreadFreeList(r: nat) returns (pFree: nat)
      requires IsRegion(r) && forall p | p in ZeroedSlots(r) :: p in trampolines && trampolines[p] == ZEROED
      modifies this`trampolines
      ensures pFree == Slot(r, 2) && trampolines.Keys == old(trampolines).Keys
      ensures forall p | p in trampolines && p !in ZeroedSlots(r) :: trampolines[p] == old(trampolines[p])
      ensures FreeChain(trampolines, pFree, SlotsFrom(r, 2))
      ensures forall p | p in ZeroedSlots(r) :: trampolines[p].cbRestore == 0
      ensures trampolines[Slot(r, 0)] == ZEROED && trampolines[Slot(r, 1)] == ZEROED
    {
      hide FreeChain, SlotsFrom, ZeroedSlots, IsSlot;
      AllSlotsZeroed(r);
      ThreadStart(trampolines, r);
      pFree := 0;
      var i := DETOUR_TRAMPOLINES_PER_REGION - 1;
      while i > 1
        invariant 1 <= i < DETOUR_TRAMPOLINES_PER_REGION
        invariant trampolines.Keys == old(trampolines).Keys
        invariant i == 1 ==> pFree == Slot(r, 2)
        invariant FreeChain(trampolines, pFree, SlotsFrom(r, i + 1))
        invariant forall p | p in trampolines && p !in ZeroedSlots(r) :: trampolines[p] == old(trampolines[p])
        invariant forall p | p in ZeroedSlots(r) :: trampolines[p].cbRestore == 0
        invariant forall k | 0 <= k <= i :: trampolines[Slot(r, k)] == ZEROED
      {
        var p := Slot(r, i);
        ThreadStep(trampolines, r, i, pFree);
        trampolines := trampolines[p := trampolines[p].(pbRemain := pFree)];
        pFree := p;
        i := i - 1;
      }
    }
  
    /** The end of the allocation once a region has been found. */
    method FoundRegion(pLo: nat, pHi: nat) returns (pTrampoline: nat)
      requires Valid() && s_pRegion in view.order && s_pRegion in view.free && view.free[s_pRegion] != []
      modifies this
      ensures Valid() && s_pRegions == old(s_pRegions) && s_pRegion == old(s_pRegion)
      ensures old(Serves(view, s_pRegion, pLo, pHi)) ==>
        && pTrampoline == old(view.free[s_pRegion][0]) && view == old(ViewTake(view, s_pRegion))
        && trampolines == old(trampolines)[pTrampoline := DEBUG_FILL]
      ensures LiveKept(old(State()), old(view), State())
      ensures !old(Serves(view, s_pRegion, pLo, pHi)) ==> pTrampoline == 0 && view == old(view) && trampolines == old(trampolines)
    {
      hide Represents, RegionRep;
      ShapeKnown(State(), view);
      FrontIsFree(State(), view, s_pRegion);
      TakeKeeps(State(), view, s_pRegion);
      pTrampoline := regions[s_pRegion].pFree;
      if pTrampoline < pLo || pTrampoline > pHi {
        return 0;
      }
      regions := regions[s_pRegion := regions[s_pRegion].(pFree := trampolines[pTrampoline].pbRemain)];
      trampolines := trampolines[pTrampoline := DEBUG_FILL];
      view := ViewTake(view, s_pRegion);
    }

    method NewRegion(pNew: nat)
      requires Valid() && IsRegion(pNew) && pNew !in view.order
      modifies this
      ensures Valid() && s_pRegion == pNew && view == old(ViewGrow(view, pNew))
      ensures LiveKept(old(State()), old(view), State())
    {
      hide Represents, FreeChain, SlotsFrom, ZeroedSlots, IsSlot, IsRegion;
      ghost var h, v := State(), view;
      ShapeKnown(h, v);
      LiveNotNew(v, pNew);
      s_pRegion := pNew;
      regions := regions[pNew := DETOUR_REGION(DETOUR_REGION_SIGNATURE, s_pRegions, 0)];
      s_pRegions := pNew;
      trampolines := trampolines + ZeroedSlots(pNew);
      var pFree := ThreadFreeList(pNew);
      regions := regions[pNew := regions[pNew].(pFree := pFree)];
      view := ViewGrow(view, pNew);
      assert Grown(h, State(), pNew);
      GrowKeeps(h, v, State(), pNew);
    }
  
    /** The loop over the existing regions; s_pRegion is NULL when none serves. */
    method FindRegion(pLo: nat, pHi: nat)
      requires Valid()
      modifies this`s_pRegion
      ensures Valid() && s_pRegion == FirstFit(view, view.order, pLo, pHi)
      ensures s_pRegion != 0 ==> s_pRegion in view.order && s_pRegion in view.free && Serves(view, s_pRegion, pLo, pHi)
    {
      hide Represents, Serves, FirstFit, IsRegion, RegionChain;
      ShapeKnown(State(), view);
      ghost var h, v, k := State(), view, 0;
      s_pRegion := s_pRegions;
      while s_pRegion != 0
        invariant k <= |v.order| && State() == h.(pRegion := s_pRegion)
        invariant RegionChain(regions, s_pRegion, v.order[k..])
        invariant FirstFit(v, v.order, pLo, pHi) == FirstFit(v, v.order[k..], pLo, pHi)
        decreases |v.order| - k
      {
        FindStep(h, v, k, s_pRegion, pLo, pHi);
        if regions[s_pRegion].pFree != 0 && pLo <= regions[s_pRegion].pFree <= pHi {
          DefaultRegion(h, v, s_pRegion);
          return;
        }
        s_pRegion := regions[s_pRegion].pNext;
        k := k + 1;
      }
      FindEnd(h, v, k, pLo, pHi);
      DefaultRegion(h, v, 0);
    }

    /** detour_alloc_trampoline, given the bounds of `detour_find_jmp_bounds` and the region
      * `detour_alloc_trampoline_allocate_new` would obtain (NULL if none).
      */
    method AllocTrampoline(pLo: nat, pHi: nat, pNew: nat) returns (pTrampoline: nat)
      requires Valid() && (pNew != 0 ==> IsRegion(pNew) && pNew !in view.order)
      modifies this
      ensures Valid()
      ensures pTrampoline != 0 ==> pTrampoline in trampolines && trampolines[pTrampoline] == DEBUG_FILL
      ensures LiveKept(old(State()), old(view), State())
      ensures old(Known(view, s_pRegion)) && (view, pTrampoline) == old(Allocated(view, s_pRegion, pLo, pHi, pNew))
      ensures s_pRegion == old(NextDefault(view, s_pRegion, pLo, pHi, pNew))
    {
      hide Represents, RegionRep, ViewTake, ViewGrow, Slot, SlotsFrom, IsRegion;
      ShapeKnown(State(), view);
      ghost var h, v := State(), view;
      if s_pRegion == 0 && s_pRegions != 0 {
        s_pRegion := s_pRegions;
        DefaultRegion(h, view, s_pRegion);
      }
      if s_pRegion != 0 {
        FrontOf(State(), view, s_pRegion);
        if regions[s_pRegion].pFree != 0 && pLo <= regions[s_pRegion].pFree <= pHi {
          pTrampoline := FoundRegion(pLo, pHi);
          return;
        }
      }
      FindRegion(pLo, pHi);
      if s_pRegion != 0 {
        pTrampoline := FoundRegion(pLo, pHi);
        return;
      }
      if pNew == 0 {
        return 0;
      }
      NewRegion(pNew);
      GrowFront(v, pNew);
      pTrampoline := FoundRegion(pLo, pHi);
    }

    /** detour_free_trampoline. */
    method FreeTrampoline(pTrampoline: nat)
      requires Valid() && pTrampoline in view.live
      modifies this
      ensures Valid() && old(RegionOf(pTrampoline) in view.free && RegionOf(pTrampoline) in regions)
      ensures State() == old(HeapFree(State(), pTrampoline)) && view == old(ViewFree(view, pTrampoline))
    {
      hide Represents;
      FreeKeeps(State(), view, pTrampoline);
      var pRegion := pTrampoline - pTrampoline % 0x1_0000;
      trampolines := trampolines[pTrampoline := ZEROED];
      trampolines := trampolines[pTrampoline := trampolines[pTrampoline].(pbRemain := regions[pRegion].pFree)];
      regions := regions[pRegion := regions[pRegion].(pFree := pTrampoline)];
      assert State() == old(HeapFree(State(), pTrampoline));
      view := ViewFree(view, pTrampoline);
    }

    /** The writes that fill in a trampoline that has been handed out. */
    method FillTrampoline(pTrampoline: nat, t: Trampoline)
      requires Valid() && pTrampoline in view.live
      modifies this`trampolines
      ensures Valid() && trampolines == old(trampolines)[pTrampoline := t]
    {
      hide Represents;
      FillKeeps(State(), view, pTrampoline, t);
      trampolines := trampolines[pTrampoline := t];
    }

    /** detour_is_region_empty: no slot in use resumes outside the region. */
    method IsRegionEmpty(pRegion: nat) returns (empty: bool)
      requires Valid() && pRegion in view.order
      ensures forall p | p in view.live :: p in trampolines
      ensures empty <==> forall p | p in view.live && RegionOf(p) == pRegion ::
        trampolines[p].pbRemain == 0 || pRegion <= trampolines[p].pbRemain < pRegion + 0x1_0000
    {
      hide Represents, Slot;
      ShapeKnown(State(), view);
      RegionKnown(State(), view, pRegion);
      if regions[pRegion].dwSignature != DETOUR_REGION_SIGNATURE {
        return false;
      }
      var i := 0;
      while i < DETOUR_TRAMPOLINES_PER_REGION
        invariant 0 <= i <= DETOUR_TRAMPOLINES_PER_REGION
        invariant forall k | 0 <= k < i :: Slot(pRegion, k) in trampolines && !Remote(trampolines[Slot(pRegion, k)], pRegion)
      {
        if Remote(trampolines[Slot(pRegion, i)], pRegion) {
          if Slot(pRegion, i) !in view.live {
            IdleSlot(State(), view, pRegion, i);
          }
          SlotIsSlot(pRegion, i, 0);
          SlotRegion(pRegion, Slot(pRegion, i));
          return false;
        }
        i := i + 1;
      }
      forall p | p in view.live && RegionOf(p) == pRegion
        ensures !Remote(trampolines[p], pRegion)
      {
        var k := LiveSlotIndex(State(), view, p);
      }
      return true;
    }

    /** The loop body's branch that releases a region. */
    method Unlink(pRegion: nat, link: Link, ghost kept: seq<nat>, ghost rest: seq<nat>)
      requires Valid() && view.order == kept + ([pRegion] + rest) && link == LinkAfter(kept)
      requires forall p | p in view.live :: RegionOf(p) != pRegion
      modifies this
      ensures Valid() && view == old(ViewDrop(view, pRegion, kept, rest)) && s_pRegion == 0
      ensures LiveKept(old(State()), old(view), State())
    {
      hide Represents, ZeroedSlots, IsRegion;
      ShapeKnown(State(), view);
      DropKeeps(State(), view, pRegion, kept, rest);
      RegionKnown(State(), view, pRegion) by { assert view.order[|kept|] == pRegion; }
      LiveElsewhere(view.live, pRegion);
      match link {
        case Head => s_pRegions := regions[pRegion].pNext;
        case Next(q) => regions := regions[q := regions[q].(pNext := regions[pRegion].pNext)];
      }
      regions := regions - {pRegion};
      trampolines := trampolines - ZeroedSlots(pRegion).Keys;
      s_pRegion := 0;
      view := ViewDrop(view, pRegion, kept, rest);
    }

    /** detour_free_unused_trampoline_regions. `link` is the pointer to pointer. */
    method FreeUnusedRegions()
      requires Valid() && Settled(State(), view)
      modifies this
      ensures Valid() && Settled(State(), view) && view == old(Pruned(view)) && LiveKept(old(State()), old(view), State())
      ensures s_pRegion == if |view.order| == |old(view.order)| then old(s_pRegion) else 0
    {
      hide Represents, RegionOf, IsRegion, Settled, Walked, Occupied, Pruned, RegionChain, LiveKept, NoDuplicates;
      ShapeKnown(State(), view);
      ghost var h, v, kept, rest := State(), view, [], view.order;
      WalkStart(v);
      var link := Head;
      var pRegion := s_pRegions;
      while pRegion != 0
        invariant Valid() && Walked(v, view, kept, rest) && LiveKept(h, v, State())
        invariant view.order == kept + rest && view.live == v.live
        invariant link == LinkAfter(kept) && RegionChain(regions, pRegion, rest)
        invariant |view.order| <= |v.order| && s_pRegion == if |view.order| == |v.order| then old(s_pRegion) else 0
        decreases |rest|
      {
        ChainHead(regions, pRegion, rest);
        var empty := IsRegionEmpty(pRegion);
        WalkStep(h, v, State(), view, kept, rest);
        ghost var h', v' := State(), view;
        if empty {
          Unlink(pRegion, link, kept, rest[1..]);
          LiveKeptTwice(h, v, h', v', State());
        } else {
          kept := kept + [pRegion];
          link := Next(pRegion);
        }
        rest := rest[1..];
        assert view.order == kept + rest;
        ShapeKnown(State(), view);
        FollowAfter(regions, s_pRegions, kept, rest);
        pRegion := match link case Head => s_pRegions case Next(q) => regions[q].pNext;
      }
      ChainHead(regions, pRegion, rest);
      WalkEnd(v, view, kept);
      SettledFrame(h, v, State(), view);
    }
  }

  lemma ChainHead(rs: map<nat, DETOUR_REGION>, head: nat, s: seq<nat>)
    requires RegionChain(rs, head, s)
    ensures head == 0 ==> s == []
    ensures head != 0 ==> s != [] && s[0] == head && s == [head] + s[1..]
  {}

  /** The walk over the list has kept `kept` of the regions it has seen and has `rest` ahead of it. */
  ghost predicate Walked(v: View, w: View, kept: seq<nat>, rest: seq<nat>) {
    && w.order == kept + rest && NoDuplicates(w.order) && w.live == v.live && |w.order| <= |v.order| && Known(w, 0)
    && (|w.order| == |v.order| ==> w.order == v.order)
    && Occupied(v.order, v.live) == kept + Occupied(rest, v.live)
    && (forall r | r in w.order :: r in v.free && w.free[r] == v.free[r])
  }

  lemma WalkStart(v: View)
    requires Known(v, 0) && NoDuplicates(v.order)
    ensures Walked(v, v, [], v.order)
  {}

  lemma WalkEnd(v: View, w: View, kept: seq<nat>)
    requires Walked(v, w, kept, [])
    ensures w == Pruned(v)
  {
    assert w.order == kept == Occupied(v.order, v.live);
    assert w.free == Pruned(v).free;
  }

  lemma SettledFrame(h: Heap, v: View, h': Heap, w: View)
    requires Settled(h, v) && LiveKept(h, v, h') && w.live == v.live
    ensures Settled(h', w)
  {}

  /** One step of the walk: an empty region is one without slots in use; dropping it, or keeping
    * one that has some, carries the walk on.
    */
  lemma WalkStep(h: Heap, v: View, h': Heap, w: View, kept: seq<nat>, rest: seq<nat>)
    requires Settled(h, v) && LiveKept(h, v, h') && Walked(v, w, kept, rest) && rest != []
    ensures InUse(rest[0], v.live) <==> exists p | p in w.live && RegionOf(p) == rest[0] :: Remote(h'.trampolines[p], rest[0])
    ensures InUse(rest[0], v.live) ==> Walked(v, w, kept + [rest[0]], rest[1..])
    ensures !InUse(rest[0], v.live) ==> Walked(v, ViewDrop(w, rest[0], kept, rest[1..]), kept, rest[1..])
  {
    hide IsRegion, RegionOf, Remote;
    assert kept + [rest[0]] + rest[1..] == kept + rest;
    if InUse(rest[0], v.live) {
      assert kept + Occupied(rest, v.live) == kept + [rest[0]] + Occupied(rest[1..], v.live);
    } else {
      assert rest == [rest[0]] + rest[1..];
      DroppedIsApart(w.order, rest[0], kept, rest[1..]);
    }
  }

  /** One step of the search along the list. */
  lemma FindStep(h: Heap, v: View, k: nat, r: nat, pLo: nat, pHi: nat)
    requires Represents(h, v) && Known(v, 0) && k <= |v.order| && RegionChain(h.regions, r, v.order[k..]) && r != 0
    ensures k < |v.order| && r == v.order[k] && r in v.order && r in v.free && r in h.regions
    ensures h.regions[r].pFree != 0 && pLo <= h.regions[r].pFree <= pHi <==> Serves(v, r, pLo, pHi)
    ensures RegionChain(h.regions, h.regions[r].pNext, v.order[k + 1..])
    ensures FirstFit(v, v.order[k..], pLo, pHi) == if Serves(v, r, pLo, pHi) then r else FirstFit(v, v.order[k + 1..], pLo, pHi)
  {
    hide Represents, IsRegion;
    assert r == v.order[k..][0] && v.order[k..][1..] == v.order[k + 1..];
    FrontOf(h, v, r);
  }

  lemma FindEnd(h: Heap, v: View, k: nat, pLo: nat, pHi: nat)
    requires Known(v, 0) && k <= |v.order| && RegionChain(h.regions, 0, v.order[k..])
    ensures FirstFit(v, v.order[k..], pLo, pHi) == 0
  {
    assert v.order[k..] == [];
  }

  lemma FillRep(h: Heap, v: View, p: nat, t: Trampoline, r: nat)
    requires r in v.free && RegionRep(h, v, r) && p in v.live && p in h.trampolines && p !in v.free[r]
    requires p != Slot(r, 0) && p != Slot(r, 1)
    ensures RegionRep(h.(trampolines := h.trampolines[p := t]), v, r)
  {
    hide Partitioned, Slot;
    FreeChainMembers(h.trampolines, h.regions[r].pFree, v.free[r]);
    FreeChainFrame(h.trampolines, h.trampolines[p := t], h.regions[r].pFree, v.free[r]);
  }

  lemma NotIdle(h: Heap, v: View, p: nat, r: nat)
    requires Represents(h, v) && p in v.live && r in v.order
    ensures r in v.free && p !in v.free[r] && p != Slot(r, 0) && p != Slot(r, 1)
  {
    RegionKnown(h, v, r);
    LiveSlot(h, v, p);
    if p == Slot(r, 0) || p == Slot(r, 1) {
      SlotRegion(r, p);
    }
  }

  lemma FillShape(h: Heap, v: View, p: nat, t: Trampoline)
    requires Shaped(h, v) && p in h.trampolines
    ensures Shaped(h.(trampolines := h.trampolines[p := t]), v)
  {
    hide RegionOf, IsSlot, Usable, NoDuplicates, RegionChain;
  }

  /** The contents of a slot in use are not part of the allocator's state. */
  lemma FillKeeps(h: Heap, v: View, p: nat, t: Trampoline)
    requires Represents(h, v) && p in v.live
    ensures Represents(h.(trampolines := h.trampolines[p := t]), v)
  {
    hide RegionRep, Shaped, Slot;
    LiveSlot(h, v, p);
    FillShape(h, v, p, t);
    forall r | r in v.order
      ensures r in v.free && RegionRep(h.(trampolines := h.trampolines[p := t]), v, r)
    {
      NotIdle(h, v, p, r);
      RegionKnown(h, v, r);
      FillRep(h, v, p, t, r);
    }
  }

  lemma DefaultRegionRep(h: Heap, v: View, r: nat, q: nat)
    requires q in v.free && RegionRep(h, v, q)
    ensures RegionRep(h.(pRegion := r), v, q)
  {
    hide Partitioned, FreeChain, Slot;
  }

  lemma DefaultShape(h: Heap, v: View, r: nat)
    requires Shaped(h, v) && (r == 0 || r in v.order)
    ensures Shaped(h.(pRegion := r), v)
  {
    hide NoDuplicates, RegionChain, RegionOf, IsSlot, Usable, IsRegion;
  }

  lemma DefaultRegion(h: Heap, v: View, r: nat)
    requires Represents(h, v) && (r == 0 || r in v.order)
    ensures Represents(h.(pRegion := r), v)
  {
    hide RegionRep, Shaped;
    DefaultShape(h, v, r);
    forall q | q in v.order
      ensures q in v.free && RegionRep(h.(pRegion := r), v, q)
    {
      RegionKnown(h, v, q);
      DefaultRegionRep(h, v, r, q);
    }
  }

  lemma GrowFront(v: View, r: nat)
    ensures r in ViewGrow(v, r).order && r in ViewGrow(v, r).free && ViewGrow(v, r).live == v.live
    ensures ViewGrow(v, r).free[r] != [] && ViewGrow(v, r).free[r][0] == Slot(r, 2)
  {
    assert r == ViewGrow(v, r).order[0];
  }

  /** What the specification functions ask of a view. */
  ghost predicate Known(v: View, pRegion: nat) {
    && (pRegion == 0 || pRegion in v.order)
    && (forall r :: r in v.free <==> r in v.order)
    && (forall r | r in v.order :: IsRegion(r))
  }

  /** The regions in memory are those in the list. */
  lemma RegionsListed(h: Heap, v: View)
    requires Represents(h, v)
    ensures forall r :: r in h.regions <==> r in v.order
  {
    RegionChainMembers(h.regions, h.pRegions, v.order);
  }

  lemma ShapeKnown(h: Heap, v: View)
    requires Represents(h, v)
    ensures Known(v, h.pRegion) && RegionChain(h.regions, h.pRegions, v.order)
    ensures h.pRegions == (if v.order == [] then 0 else v.order[0]) && NoDuplicates(v.order)
    ensures forall p | p in v.live :: p in h.trampolines && RegionOf(p) in v.order
    ensures LiveKept(h, v, h)
  {
    forall p | p in v.live
      ensures p in h.trampolines
    {
      LiveSlot(h, v, p);
    }
  }

  lemma FrontIsFree(h: Heap, v: View, r: nat)
    requires Represents(h, v) && r in v.order && r in v.free && v.free[r] != []
    ensures v.free[r][0] !in v.live
  {
    assert RegionRep(h, v, r);
  }

  lemma LiveElsewhere(live: set<nat>, r: nat)
    requires IsRegion(r) && forall p | p in live :: RegionOf(p) != r
    ensures forall p | p in live :: p !in ZeroedSlots(r)
  {
    forall p | p in live
      ensures p !in ZeroedSlots(r)
    {
      ZeroedSlotsAre(r, p);
    }
  }

  lemma LiveNotNew(v: View, r: nat)
    requires IsRegion(r) && r !in v.order && forall p | p in v.live :: RegionOf(p) in v.order
    ensures forall p | p in v.live :: p !in ZeroedSlots(r)
  {
    forall p | p in v.live
      ensures p !in ZeroedSlots(r)
    {
      ZeroedSlotsAre(r, p);
    }
  }

  /** The front of a region's free list is what its header points to. */
  lemma FrontOf(h: Heap, v: View, r: nat)
    requires Represents(h, v) && r in v.order
    ensures r != 0 && r in h.regions && r in v.free && h.regions[r].pFree == if v.free[r] == [] then 0 else v.free[r][0]
    ensures v.free[r] == [] || v.free[r][0] != 0
  {
    assert RegionRep(h, v, r);
  }
}
