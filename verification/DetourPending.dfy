/** What holds of the pending operations between the calls of a transaction
  * (detours/src/detours.cpp:1586-1652, 1950-2352, 2354-2491).
  */
module DetourPending {
  import opened TrampolineHeap
  import opened TrampolineRegions
  import opened TrampolineAllocator
  import opened DetourOperations

  /** The process outside the trampolines: code, the user's pointers and the page protections. */
  datatype World = World(code: map<nat, bv8>, pointers: map<nat, nat>, prot: map<nat, nat>)

  /** The addresses of a range are mapped. */
  predicate Mapped(w: World, at: nat, cb: nat) {
    && (forall a | at <= a < at + cb :: a in w.code)
    && at / PAGE_SIZE in w.prot
  }

  predicate Distinct(ops: seq<DetourOperation>) {
    forall i, j | 0 <= i < j < |ops| :: ops[i].pTrampoline != ops[j].pTrampoline
  }

  predicate AllLive(v: View, ts: map<nat, Trampoline>, ops: seq<DetourOperation>) {
    forall o | o in ops :: o.pTrampoline in v.live && o.pTrampoline in ts
  }

  /** Each pending operation can be committed. */
  predicate Ready(w: World, es: seq<Entry>) {
    forall e | e in es :: Sound(e) && Mapped(w, e.o.pbTarget, e.t.cbRestore) && e.o.ppbPointer in w.pointers
  }

  /** While operations are pending, code and pointers are those of the beginning, the protections
    * those the operations asked for, and undoing the operations gives back every trampoline taken
    * since; `added` are the regions obtained since.
    */
  ghost predicate InTransaction(v: View, ts: map<nat, Trampoline>, w: World, ops: seq<DetourOperation>, w0: World, v0: View, added: seq<nat>) {
    && AllLive(v, ts, ops) && Distinct(ops) && Ready(w, Entries(ops, ts))
    && w == w0.(prot := PendingProt(w0.prot, Entries(ops, ts))) && Recorded(w0.prot, Entries(ops, ts))
    && Undo(v, ops) == GrowAll(v0, added)
    && (forall r :: r in v0.free <==> r in v0.order)
  }

  lemma Begins(v: View, ts: map<nat, Trampoline>, w: World)
    requires forall r :: r in v.free <==> r in v.order
    ensures InTransaction(v, ts, w, [], w, v, [])
  {}

  lemma {:induction false} EntriesFrame(ops: seq<DetourOperation>, ts: map<nat, Trampoline>, ts': map<nat, Trampoline>)
    requires forall o | o in ops :: o.pTrampoline in ts && o.pTrampoline in ts' && ts'[o.pTrampoline] == ts[o.pTrampoline]
    ensures Entries(ops, ts') == Entries(ops, ts)
  {
    if ops != [] {
      EntriesFrame(ops[1..], ts, ts');
    }
  }

  /** What an allocation leaves once its slot is given back. */
  ghost function Regrown(v: View, pRegion: nat, pLo: nat, pHi: nat, pNew: nat): View
    requires Known(v, pRegion)
  {
    if Chosen(v, pRegion, pLo, pHi) == 0 && pNew != 0 then ViewGrow(v, pNew) else v
  }

  lemma AllocationUndone(h: Heap, v: View, pLo: nat, pHi: nat, pNew: nat)
    requires Represents(h, v) && Known(v, h.pRegion) && (pNew != 0 ==> IsRegion(pNew) && pNew !in v.order)
    ensures var (v', p) := Allocated(v, h.pRegion, pLo, pHi, pNew);
      var u := Regrown(v, h.pRegion, pLo, pHi, pNew);
      && u.live == v.live && (p == 0 ==> v' == u)
      && (p != 0 ==> p !in v.live && v'.live == v.live + {p} && RegionOf(p) in v'.free && ViewFree(v', p) == u)
  {
    hide Represents, IsRegion, SlotsFrom, RegionOf, Slot, RegionRep, Usable, FirstFit;
    var r := Chosen(v, h.pRegion, pLo, pHi);
    if r != 0 && v.free[r] != [] {
      FrontOf(h, v, r);
      FrontIsFree(h, v, r);
      RegionKnown(h, v, r);
      assert RegionOf(v.free[r][0]) == r by { FrontRegion(h, v, r); }
      TakeThenFree(v, r);
    } else if pNew != 0 {
      GrowFront(v, pNew);
      NewFront(h, v, pNew);
      TakeThenFree(ViewGrow(v, pNew), pNew);
      ChosenHasFree(h, v, pLo, pHi);
    } else {
      ChosenHasFree(h, v, pLo, pHi);
    }
  }

  lemma ChosenHasFree(h: Heap, v: View, pLo: nat, pHi: nat)
    requires Represents(h, v) && Known(v, h.pRegion)
    ensures var r := Chosen(v, h.pRegion, pLo, pHi); r != 0 ==> v.free[r] != [] && v.free[r][0] != 0
  {
    hide Represents;
    FirstFitServes(v, v.order, pLo, pHi);
    var r := Chosen(v, h.pRegion, pLo, pHi);
    if r != 0 {
      FrontOf(h, v, r);
    }
  }

  lemma FrontRegion(h: Heap, v: View, r: nat)
    requires Represents(h, v) && r in v.order && r in v.free && v.free[r] != []
    ensures RegionOf(v.free[r][0]) == r
  {
    RegionKnown(h, v, r);
    FreeSlot(r, v.free[r], v.live, v.free[r][0]);
  }

  lemma NewFront(h: Heap, v: View, r: nat)
    requires Represents(h, v) && IsRegion(r) && r !in v.order
    ensures RegionOf(Slot(r, 2)) == r && Slot(r, 2) !in v.live && Slot(r, 2) != 0
  {
    SlotIsSlot(r, 2, 0);
    SlotRegion(r, Slot(r, 2));
  }

  /** An allocation whose slot is not kept changes at most the number of regions. */
  lemma AllocationKeeps(h: Heap, v: View, v': View, ts: map<nat, Trampoline>, ts': map<nat, Trampoline>, pNew: nat,
                        w: World, ops: seq<DetourOperation>, w0: World, v0: View, added: seq<nat>)
    requires Represents(h, v) && InTransaction(v, ts, w, ops, w0, v0, added)
    requires v' == v || (v' == ViewGrow(v, pNew) && IsRegion(pNew) && pNew !in v.order)
    requires forall p | p in v.live :: p in ts && p in ts' && ts'[p] == ts[p]
    ensures InTransaction(v', ts', w, ops, w0, v0, if v' == v then added else [pNew] + added)
  {
    hide Represents, RegionOf, IsRegion, Ready, Recorded, SlotsFrom;
    EntriesFrame(ops, ts, ts');
    LiveRegions(h, v);
    if v' != v {
      UndoAfterGrow(v, pNew, ops);
      assert ([pNew] + added)[1..] == added;
    }
  }

  /** Only the pending operations' trampolines matter. */
  lemma ContentsFrame(v: View, ts: map<nat, Trampoline>, ts': map<nat, Trampoline>,
                      w: World, ops: seq<DetourOperation>, w0: World, v0: View, added: seq<nat>)
    requires InTransaction(v, ts, w, ops, w0, v0, added)
    requires forall o | o in ops :: o.pTrampoline in ts' && ts'[o.pTrampoline] == ts[o.pTrampoline]
    ensures InTransaction(v, ts', w, ops, w0, v0, added)
  {
    EntriesFrame(ops, ts, ts');
  }

  /** Adding an operation at the head of the list. */
  lemma PushKeeps(v: View, v': View, ts: map<nat, Trampoline>, ts': map<nat, Trampoline>,
                  w: World, w': World, o: DetourOperation, ops: seq<DetourOperation>, w0: World, v0: View, added: seq<nat>)
    requires InTransaction(v, ts, w, ops, w0, v0, added)
    requires o.pTrampoline in ts' && o.pTrampoline in v'.live && v.live <= v'.live
    requires forall q | q in ops :: q.pTrampoline != o.pTrampoline && q.pTrampoline in ts' && ts'[q.pTrampoline] == ts[q.pTrampoline]
    requires Undo1(v', o) == v
    requires var e := Entry(o, ts'[o.pTrampoline]);
      && Sound(e) && Mapped(w, o.pbTarget, e.t.cbRestore) && o.ppbPointer in w.pointers
      && o.dwPerm == w.prot[o.pbTarget / PAGE_SIZE]
      && w' == w.(prot := Protect(w.prot, o.pbTarget, e.t.cbRestore, PAGE_EXECUTE_READWRITE))
    ensures InTransaction(v', ts', w', [o] + ops, w0, v0, added)
  {
    hide Undo1, Sound, Protect;
    EntriesFrame(ops, ts, ts');
    var os := [o] + ops;
    assert os[1..] == ops;
    var e := Entry(o, ts'[o.pTrampoline]);
    var es := Entries(os, ts');
    assert es == [e] + Entries(ops, ts) && es[1..] == Entries(ops, ts);
    SoundHasBytes(e);
    assert AllLive(v', ts', os);
    assert Distinct(os);
    assert Ready(w', es);
    assert PendingProt(w0.prot, es) == w'.prot;
    assert Recorded(w0.prot, es);
  }

  lemma SoundHasBytes(e: Entry)
    requires Sound(e)
    ensures e.t.cbRestore > 0
  {}

  // ------------------------------------------------------------ Filled trampolines

  predicate Filled(t: Trampoline) { |t.rbRestore| == t.cbRestore <= t.pbRemain }

  /** Every slot in use holds a filled-in trampoline. */
  ghost predicate AllFilled(h: Heap, v: View) {
    forall p | p in v.live && p in h.trampolines :: Filled(h.trampolines[p])
  }

  lemma StaysFilled(h: Heap, v: View, h': Heap, v': View)
    requires AllFilled(h, v) && LiveKept(h, v', h') && v'.live <= v.live
    ensures AllFilled(h', v')
  {}

  lemma OneMoreFilled(h: Heap, v: View, h': Heap, v': View, p: nat)
    requires AllFilled(h, v) && LiveKept(h, v, h') && v'.live == v.live + {p} && p in h'.trampolines && Filled(h'.trampolines[p])
    ensures AllFilled(h', v')
  {}

  /** Only a slot in use can hold a non-zero count of displaced bytes: a freed, new or reserved slot
    * has none.
    */
  lemma HoldsBytesOnlyIfLive(h: Heap, v: View, p: nat)
    requires Represents(h, v) && p in h.trampolines && h.trampolines[p].cbRestore != 0
    ensures p in v.live
  {
    hide Represents, FreeChain, IsSlot, RegionOf, SlotsFrom, Usable;
    var r := RegionOf(p);
    HomeRegion(h, v, p);
    RegionKnown(h, v, r);
    var i := SlotIndex(r, p, 0);
    assert i == 0 || i == 1 || 2 <= i;
  }

  lemma HomeRegion(h: Heap, v: View, p: nat)
    requires Represents(h, v) && p in h.trampolines
    ensures RegionOf(p) in v.order && IsSlot(RegionOf(p), p, 0)
  {}

  // ------------------------------------------------------ Walking the list at the end

  /** What is left of the walk when the operations from `ops[0]` on are still to be done. */
  ghost predicate Walking(v: View, ts: map<nat, Trampoline>, prot: map<nat, nat>, ops: seq<DetourOperation>,
                          es: seq<Entry>, lastProt: map<nat, nat>)
  {
    && AllLive(v, ts, ops) && Distinct(ops) && es == Entries(ops, ts)
    && RestoreProt(prot, es) == lastProt
  }

  /** One step, with the operation's trampoline given back or kept. */
  lemma WalkOn(v: View, v': View, ts: map<nat, Trampoline>, ts': map<nat, Trampoline>, prot: map<nat, nat>,
               ops: seq<DetourOperation>, es: seq<Entry>, lastProt: map<nat, nat>)
    requires Walking(v, ts, prot, ops, es, lastProt) && ops != []
    requires v'.live == v.live || v'.live == v.live - {ops[0].pTrampoline}
    requires ts'.Keys == ts.Keys && forall p | p in ts && p != ops[0].pTrampoline :: ts'[p] == ts[p]
    ensures es != [] && es[0] == Entry(ops[0], ts[ops[0].pTrampoline])
    ensures Walking(v', ts', Protect(prot, ops[0].pbTarget, es[0].t.cbRestore, ops[0].dwPerm), ops[1..], es[1..], lastProt)
  {
    hide Protect;
    var rest := ops[1..];
    assert forall k | 0 <= k < |rest| :: rest[k] == ops[k + 1];
    assert forall o | o in rest :: o in ops;
    EntriesFrame(rest, ts, ts');
  }
}
