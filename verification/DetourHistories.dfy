/** Whole histories of attaches and detaches, each committed in its own transaction. */
module DetourHistories {
  import opened TrampolineHeap
  import opened TrampolineRegions
  import opened TrampolineAllocator
  import opened TrampolineReach
  import opened DetourOperations
  import opened DetourPending
  import opened DetourTransaction
  import opened DetourJump
  import opened TrampolineConservation
  import Arm64Address

  /** How the process answers: the code a pointer leads to, the number of bytes an attach displaces at
    * an address, and the region the system would supply besides those there are.
    */
  datatype Environment = Environment(
    CodeFromPointer: (map<nat, bv8>, nat) -> nat,
    Displaces: (map<nat, bv8>, nat) -> nat,
    Supply: (set<nat>, nat) -> nat)

  /** No mapped code lies in a trampoline region. */
  ghost predicate Apart(v: View, code: map<nat, bv8>) { forall a | a in code :: RegionOf(a) !in v.order }

  /** Between transactions. */
  ghost predicate Idle(d: Detours)
    reads d, d.heap
  {
    d.Valid() && d.s_nPendingThreadId == 0 && Settled(d.heap.State(), d.heap.view) && Apart(d.heap.view, d.code)
  }

  // ------------------------------------------------------------------ Atomicity

  lemma {:induction false} GrowAllOrder(v: View, added: seq<nat>)
    ensures GrowAll(v, added).live == v.live && GrowAll(v, added).order == added + v.order
  {
    hide SlotsFrom;
    if added != [] {
      GrowAllOrder(v, added[1..]);
      assert added == [added[0]] + added[1..];
    }
  }

  lemma {:induction false} GrowAllFree(v: View, added: seq<nat>, r: nat)
    requires NoDuplicates(added) && (r in v.free ==> r !in added) && (r in v.free || r in added)
    ensures r in GrowAll(v, added).free
    ensures GrowAll(v, added).free[r] == if r in added then SlotsFrom(r, 2) else v.free[r]
  {
    hide SlotsFrom;
    if added != [] {
      var rest := added[1..];
      assert forall i | 0 <= i < |rest| :: rest[i] == added[i + 1];
      if r != added[0] {
        GrowAllFree(v, rest, r);
      }
    }
  }

  lemma PrefixDistinct(added: seq<nat>, order: seq<nat>)
    requires NoDuplicates(added + order)
    ensures NoDuplicates(added) && forall r | r in order :: r !in added
  {
    var s := added + order;
    assert forall i | 0 <= i < |added| :: s[i] == added[i];
    assert forall i | 0 <= i < |order| :: s[|added| + i] == order[i];
  }

  /** An abort, or a commit that finds a pending error, is atomic: code, pointers, the trampolines in
    * use and every free list are those of the beginning, slot for slot; regions obtained since are
    * in front of the list with all their usable slots free; and every page has its final protection.
    */
  lemma AbortIsAtomic(d: Detours, ts: map<nat, Trampoline>, ops: seq<DetourOperation>, w0: World, v0: View, obtained: seq<nat>)
    requires d.Valid() && d.Aborted(ts, ops, w0, v0, obtained)
    ensures d.code == w0.code && d.pointers == w0.pointers
    ensures d.heap.view.live == v0.live && d.heap.view.order == obtained + v0.order
    ensures forall r | r in v0.order :: r in v0.free && r in d.heap.view.free && d.heap.view.free[r] == v0.free[r]
    ensures forall r | r in obtained :: r in d.heap.view.free && d.heap.view.free[r] == SlotsFrom(r, 2)
    ensures d.prot.Keys == w0.prot.Keys && forall e | e in Entries(ops, ts) :: e.o.pbTarget / PAGE_SIZE in w0.prot
    ensures forall q | q in w0.prot :: d.prot[q] == FinalProt(w0.prot, Entries(ops, ts), q)
  {
    hide Represents, InTransaction, AllFilled, SlotsFrom, GrowAll, FinalProt, RestoreProt, PendingProt, Recorded;
    ShapeKnown(d.heap.State(), d.heap.view);
    GrowAllOrder(v0, obtained);
    PrefixDistinct(obtained, v0.order);
    forall r | r in v0.order || r in obtained
      ensures r in d.heap.view.free && d.heap.view.free[r] == if r in obtained then SlotsFrom(r, 2) else v0.free[r]
    {
      GrowAllFree(v0, obtained, r);
    }
    Protections(w0.prot, Entries(ops, ts));
  }

  /** The same final protections after a commit. */
  lemma CommitProtections(d: Detours, h: Heap, v: View, ops: seq<DetourOperation>, w0: World)
    requires d.Committed(h, v, ops, w0)
    ensures d.prot.Keys == w0.prot.Keys && forall e | e in Entries(ops, h.trampolines) :: e.o.pbTarget / PAGE_SIZE in w0.prot
    ensures forall q | q in w0.prot :: d.prot[q] == FinalProt(w0.prot, Entries(ops, h.trampolines), q)
  {
    hide CommitCode, CommitPointers, LiveKept, Removed, Pruned, FinalProt, RestoreProt, PendingProt, Recorded;
    Protections(w0.prot, Entries(ops, h.trampolines));
  }

  lemma Protections(before: map<nat, nat>, es: seq<Entry>)
    requires Recorded(before, es)
    ensures forall e | e in es :: e.o.pbTarget / PAGE_SIZE in before
    ensures RestoreProt(PendingProt(before, es), es).Keys == before.Keys
    ensures forall q | q in before :: RestoreProt(PendingProt(before, es), es)[q] == FinalProt(before, es, q)
  {
    forall k | 0 <= k < |es|
      ensures es[k].o.pbTarget / PAGE_SIZE in before
    {
      RecordedIs(before, es, k);
    }
    forall q | q in before
      ensures RestoreProt(PendingProt(before, es), es)[q] == FinalProt(before, es, q)
    {
      ProtectionsRestored(before, es, q);
    }
  }

  // ------------------------------------------------------------- Single operations

  /** The bytes an attach displaces and the one after them are mapped. */
  predicate Displaceable(code: map<nat, bv8>, pages: set<nat>, pbTarget: nat, cb: nat) {
    cb % 4 == 0 && (forall a | pbTarget <= a <= pbTarget + cb :: a in code) && pbTarget / PAGE_SIZE in pages
  }

  /** The system supplies a free region. */
  predicate Suppliable(regions: set<nat>, code: map<nat, bv8>, pNew: nat) {
    pNew != 0 ==> IsRegion(pNew) && pNew !in regions && forall a | a in code :: RegionOf(a) != pNew
  }

  /** What a single operation depends on and changes: code, pointers and the allocator. */
  datatype Status = Status(code: map<nat, bv8>, pointers: map<nat, nat>, view: View, pRegion: nat) {
    function Regions(): set<nat> { set r | r in view.order }
  }

  ghost function StatusOf(d: Detours): Status
    reads d, d.heap
  {
    Status(d.code, d.pointers, d.heap.view, d.heap.s_pRegion)
  }

  datatype Grants = Grants(noMemory: bool, nProtect: nat)

  /** An attach of one pointer, as the process answers it. */
  datatype Attach = Attach(pbTarget: nat, pbDetour: nat, cb: nat, pNew: nat, grants: Grants) {
    /** The slot that is offered and the allocator once it is taken. */
    ghost function Offer(v: View, pRegion: nat): (View, nat) {
      if Known(v, pRegion) then Allocated(v, pRegion, detour_2gb_below(pbTarget), detour_2gb_above(pbTarget), pNew) else (v, 0)
    }

    /** The detour is another function, and memory, instructions and the system allow it. */
    ghost predicate Granted(v: View, pRegion: nat) {
      && pbDetour != pbTarget && !grants.noMemory && Offer(v, pRegion).1 != 0
      && SIZE_OF_JMP <= cb <= SIZEOF_RBCODE - SIZE_OF_JMP && grants.nProtect == NO_ERROR
    }

    ghost function DefaultAfter(v: View, pRegion: nat): nat {
      if Known(v, pRegion) then NextDefault(v, pRegion, detour_2gb_below(pbTarget), detour_2gb_above(pbTarget), pNew) else pRegion
    }

    ghost function Done(st: Status, ppPointer: nat): Status {
      var p := Offer(st.view, st.pRegion).1;
      Status(if SIZE_OF_JMP <= cb && cb % 4 == 0 then Write(st.code, pbTarget, Patch(pbTarget, p, cb)) else st.code,
             st.pointers[ppPointer := p], Offer(st.view, st.pRegion).0, DefaultAfter(st.view, st.pRegion))
    }

    /** The attach taken back in `st1`. */
    ghost function Undone(st: Status, st1: Status, retain: bool, ppPointer: nat): Status
      requires forall x | pbTarget <= x < pbTarget + cb :: x in st.code
    {
      Detached(st1, retain, ppPointer, Offer(st.view, st.pRegion).1, pbTarget, Read(st.code, pbTarget, cb))
    }

    /** Nothing is attached, but a region may have been obtained and the default one changed. */
    ghost function Refused(st: Status): Status {
      if pbDetour == pbTarget || grants.noMemory || !Known(st.view, st.pRegion) then st
      else
        st.(view := Regrown(st.view, st.pRegion, detour_2gb_below(pbTarget), detour_2gb_above(pbTarget), pNew),
            pRegion := DefaultAfter(st.view, st.pRegion))
    }
  }

  /** The attach of a pointer in a status. */
  ghost function AttachOf(e: Environment, st: Status, ppPointer: nat, pDetour: nat, grants: Grants): Attach
    requires ppPointer in st.pointers
  {
    var pbTarget := e.CodeFromPointer(st.code, st.pointers[ppPointer]);
    Attach(pbTarget, e.CodeFromPointer(st.code, pDetour), e.Displaces(st.code, pbTarget),
           e.Supply(st.Regions(), pbTarget), grants)
  }

  /** An attach asks for mapped code through a pointer of the program. */
  ghost predicate Asks(e: Environment, pages: set<nat>, st: Status, ppPointer: nat, pDetour: nat) {
    && ppPointer != 0 && ppPointer in st.pointers && st.pointers[ppPointer] != 0 && pDetour != 0
    && var a := AttachOf(e, st, ppPointer, pDetour, Grants(false, NO_ERROR));
       Displaceable(st.code, pages, a.pbTarget, a.cb) && Suppliable(st.Regions(), st.code, a.pNew)
  }

  /** The bytes are back, the pointer leads to the function, and the slot is free; idle regions are
    * released unless they are retained.
    */
  ghost function Detached(st: Status, retain: bool, ppPointer: nat, p: nat, pbTarget: nat, rbRestore: seq<bv8>): Status {
    var freed := if RegionOf(p) in st.view.free then ViewFree(st.view, p) else st.view;
    var view := if retain then freed else Pruned(freed);
    Status(Write(st.code, pbTarget, rbRestore), st.pointers[ppPointer := pbTarget], view,
           if |view.order| == |freed.order| then st.pRegion else 0)
  }

  /** A filled trampoline resumes in mapped code, so outside its own region. */
  lemma ApartIsRemote(v: View, code: map<nat, bv8>, t: Trampoline, r: nat)
    requires Apart(v, code) && t.pbRemain in code && t.pbRemain != 0 && r in v.order && IsRegion(r)
    ensures Remote(t, r)
  {
    InRegion(r, t.pbRemain);
  }

  lemma InRegion(r: nat, a: nat)
    requires IsRegion(r)
    ensures r <= a < r + DETOUR_REGION_SIZE ==> RegionOf(a) == r
  {
    if r <= a < r + DETOUR_REGION_SIZE {
      var off := a - r;
      assert (r + off) % DETOUR_REGION_SIZE == off;
    }
  }

  /** What the heap looks like once an offered slot has been accepted. */
  lemma OfferIs(h: Heap, v: View, pLo: nat, pHi: nat, pNew: nat)
    requires Represents(h, v) && Known(v, h.pRegion) && (pNew != 0 ==> IsRegion(pNew) && pNew !in v.order)
    ensures var (v', p) := Allocated(v, h.pRegion, pLo, pHi, pNew);
      && (v'.order == v.order || (pNew != 0 && v'.order == [pNew] + v.order))
      && (p != 0 ==> p !in v.live && v'.live == v.live + {p})
  {
    hide Represents, IsRegion, SlotsFrom, RegionOf, Slot, FirstFit;
    AllocationUndone(h, v, pLo, pHi, pNew);
  }

  lemma SettledByOne(h: Heap, v: View, h': Heap, v': View, p: nat)
    requires Settled(h, v) && LiveKept(h, v, h') && v'.live == v.live + {p} && p in h'.trampolines && Remote(h'.trampolines[p], RegionOf(p))
    ensures Settled(h', v')
  {}

  lemma ApartGrown(v: View, v': View, code: map<nat, bv8>, pNew: nat)
    requires Apart(v, code) && (v'.order == v.order || (v'.order == [pNew] + v.order && forall a | a in code :: RegionOf(a) != pNew))
    ensures Apart(v', code)
  {}

  /** What committing one attach does. */
  lemma OneAttachCommitted(code: map<nat, bv8>, pointers: map<nat, nat>, e: Entry)
    requires Sound(e)
    ensures CommitCode(code, [e]) == CommitCode1(code, e) && CommitPointers(pointers, [e]) == CommitPointers1(pointers, e)
  {
    assert [e][1..] == [];
  }

  /** Ending a transaction that holds nothing, whether or not an error is pending. */
  method CommitNothing(d: Detours, self: nat)
    requires d.Valid() && self != 0 && d.s_nPendingThreadId == self && d.s_pPendingOperations == []
    requires Settled(d.heap.State(), d.heap.view) && Apart(d.heap.view, d.code)
    modifies d, d.heap
    ensures Idle(d) && LiveKept(old(d.heap.State()), old(d.heap.view), d.heap.State())
    ensures d.Now() == old(d.Now()) && StatusOf(d) == old(StatusOf(d)) && d.s_fRetainRegions == old(d.s_fRetainRegions)
  {
    hide Represents, InTransaction, AllFilled, Settled, Apart, LiveKept, RestoreProt, PendingProt, Recorded, CommitCode, CommitPointers, Removed;
    ghost var v := d.heap.view;
    NothingPending(d.heap.view, d.heap.trampolines, d.Now(), d.world0, d.view0, d.added);
    NoneCommitted(d.heap.trampolines, v, d.prot);
    var committed, failed := d.TransactionCommitEx(self);
  }

  /** Committing one attach. */
  method CommitAttach(d: Detours, self: nat)
    requires d.Valid() && self != 0 && d.s_nPendingThreadId == self && d.s_nPendingError == NO_ERROR
    requires |d.s_pPendingOperations| == 1 && !d.s_pPendingOperations[0].fIsRemove && d.s_pPendingOperations[0].pTrampoline in d.heap.trampolines
    requires Settled(d.heap.State(), d.heap.view) && Apart(d.heap.view, d.code)
    modifies d, d.heap
    ensures Idle(d) && LiveKept(old(d.heap.State()), old(d.heap.view), d.heap.State())
    ensures d.heap.view == old(d.heap.view) && d.heap.s_pRegion == old(d.heap.s_pRegion) && d.prot.Keys == old(d.prot).Keys
    ensures d.s_fRetainRegions == old(d.s_fRetainRegions)
    ensures var e := old(Entry(d.s_pPendingOperations[0], d.heap.trampolines[d.s_pPendingOperations[0].pTrampoline]));
      Sound(e) && d.code == CommitCode1(old(d.code), e) && d.pointers == CommitPointers1(old(d.pointers), e)
  {
    hide Represents, InTransaction, AllFilled, Settled, Apart, LiveKept, RestoreProt, PendingProt, Recorded, Removed, Patch, Sound;
    ghost var ts, v, o, w := d.heap.trampolines, d.heap.view, d.s_pPendingOperations[0], d.Now();
    assert d.s_pPendingOperations == [o];
    PendingWorld(v, ts, w, [o], d.world0, d.view0, d.added);
    OneCommitted(ts, v, o);
    var committed, failed := d.TransactionCommitEx(self);
    ApartSameKeys(v, w.code, d.code);
  }

  /** Committing one detach. */
  method CommitDetach(d: Detours, self: nat)
    requires d.Valid() && self != 0 && d.s_nPendingThreadId == self && d.s_nPendingError == NO_ERROR
    requires |d.s_pPendingOperations| == 1 && d.s_pPendingOperations[0].fIsRemove && d.s_pPendingOperations[0].pTrampoline in d.heap.view.live
    requires d.s_pPendingOperations[0].pTrampoline in d.heap.trampolines
    requires Settled(d.heap.State(), d.heap.view) && Apart(d.heap.view, d.code)
    modifies d, d.heap
    ensures Idle(d) && LiveKept(old(d.heap.State()), d.heap.view, d.heap.State())
    ensures d.heap.view.live == old(d.heap.view.live) - {old(d.s_pPendingOperations[0].pTrampoline)} && d.prot.Keys == old(d.prot).Keys
    ensures d.s_fRetainRegions == old(d.s_fRetainRegions)
    ensures var e := old(Entry(d.s_pPendingOperations[0], d.heap.trampolines[d.s_pPendingOperations[0].pTrampoline]));
      && Sound(e) && d.prot.Keys == old(d.prot).Keys
      && StatusOf(d) == Detached(old(StatusOf(d)), d.s_fRetainRegions, e.o.ppbPointer, e.o.pTrampoline, e.o.pbTarget, e.t.rbRestore)
  {
    hide Represents, InTransaction, AllFilled, Settled, Apart, LiveKept, RestoreProt, PendingProt, Recorded, Removed, Pruned, Patch, Sound, Redo1;
    ghost var ts, v, o, w := d.heap.trampolines, d.heap.view, d.s_pPendingOperations[0], d.Now();
    assert d.s_pPendingOperations == [o];
    PendingWorld(v, ts, w, [o], d.world0, d.view0, d.added);
    OneCommitted(ts, v, o);
    LiveRegions(d.heap.State(), v);
    RemovalIs(v, o);
    var committed, failed := d.TransactionCommitEx(self);
    ApartShrinks(v, d.heap.view, w.code, d.code);
  }

  lemma RemovalIs(v: View, o: DetourOperation)
    requires o.fIsRemove && RegionOf(o.pTrampoline) in v.free
    ensures Redo1(v, o).live == v.live - {o.pTrampoline} && Redo1(v, o).order == v.order && Redo1(v, o) == ViewFree(v, o.pTrampoline)
    ensures Pruned(Redo1(v, o)).live == v.live - {o.pTrampoline} && forall r | r in Pruned(Redo1(v, o)).order :: r in v.order
  {}

  lemma ApartShrinks(v: View, v': View, code: map<nat, bv8>, code': map<nat, bv8>)
    requires Apart(v, code) && code'.Keys == code.Keys && forall r | r in v'.order :: r in v.order
    ensures Apart(v', code')
  {}

  /** One attach in a transaction of its own succeeds exactly if it is granted. */
  method AttachOne(d: Detours, self: nat, ppPointer: nat, pDetour: nat, e: Environment, grants: Grants)
    returns (done: bool, p: nat)
    requires Idle(d) && self != 0 && Asks(e, d.prot.Keys, StatusOf(d), ppPointer, pDetour)
    modifies d, d.heap
    ensures Idle(d) && LiveKept(old(d.heap.State()), old(d.heap.view), d.heap.State())
    ensures d.prot.Keys == old(d.prot).Keys && d.s_fRetainRegions == old(d.s_fRetainRegions)
    ensures var a, st := old(AttachOf(e, StatusOf(d), ppPointer, pDetour, grants)), old(StatusOf(d));
      && done == a.Granted(st.view, st.pRegion) && StatusOf(d) == (if done then a.Done(st, ppPointer) else a.Refused(st))
      && (done ==>
          && p == a.Offer(st.view, st.pRegion).1 && p !in st.view.live && d.heap.view.live == st.view.live + {p}
          && p in d.heap.trampolines
          && d.heap.trampolines[p] == Trampoline(a.pbTarget + a.cb, a.pbDetour, a.cb, Read(st.code, a.pbTarget, a.cb)))
      && (!done ==> d.heap.view.live == st.view.live)
      && (done && a.pbTarget < Arm64Address.ADDRESS_LIMIT ==> Detoured(d.code, a.pbTarget, p, d.heap.trampolines[p]))
  {
    hide Represents, InTransaction, AllFilled, Settled, Apart, LiveKept, AttachOf, Attach.Offer, Attach.Granted, Attach.DefaultAfter, Patch, Write, Read,
         Detoured;
    ghost var h, v := d.heap.State(), d.heap.view;
    ghost var a, st := AttachOf(e, StatusOf(d), ppPointer, pDetour, grants), StatusOf(d);
    done, p := OpenAttach(d, self, ppPointer, pDetour, e, grants);
    ghost var h1, v1 := d.heap.State(), d.heap.view;
    if done {
      CommitAttach(d, self);
    } else {
      CommitNothing(d, self);
    }
    LiveKeptTwice(h, v, h1, v1, d.heap.State());
    if done {
      LiveContents(h1, v1, d.heap.State(), p);
      AskedFor(e, d.prot.Keys, st, ppPointer, pDetour, grants);
      if a.pbTarget < Arm64Address.ADDRESS_LIMIT { AttachDetours(h, st, a, d.prot.Keys, ppPointer, d.heap.trampolines[p]); }
    }
  }

  /** The slot that is offered is within reach of its target and aligned. */
  lemma OfferNear(h: Heap, st: Status, a: Attach)
    requires Represents(h, st.view) && st.pRegion == h.pRegion && Suppliable(st.Regions(), st.code, a.pNew) && a.Granted(st.view, st.pRegion)
    ensures var p := a.Offer(st.view, st.pRegion).1; InReach(a.pbTarget, p) && p % 8 == 0
  {
    hide Represents, detour_2gb_below, detour_2gb_above, Allocated, Serves, Slot;
    ShapeKnown(h, st.view);
    AllocationIsSafe(h, st.view, detour_2gb_below(a.pbTarget), detour_2gb_above(a.pbTarget), a.pNew);
    SlotAligned(a.Offer(st.view, st.pRegion).1);
  }

  lemma SlotAligned(p: nat)
    requires IsRegion(RegionOf(p)) && Usable(RegionOf(p), p)
    ensures p % 8 == 0
  {
    var r := RegionOf(p);
    var i := SlotIndex(r, p, 2);
    assert p == 8 * (r / 8 + 23 * (i + 1));
  }

  lemma WrittenIsPatched(before: map<nat, bv8>, pbTarget: nat, p: nat, cb: nat)
    requires SIZE_OF_JMP <= cb && cb % 4 == 0 && forall x | pbTarget <= x < pbTarget + cb :: x in before
    ensures Patched(Write(before, pbTarget, Patch(pbTarget, p, cb)), pbTarget, p, cb)
  {
    hide Patch;
  }

  /** Committing an attach detours its function. */
  lemma AttachDetours(h: Heap, st: Status, a: Attach, pages: set<nat>, ppPointer: nat, t: Trampoline)
    requires Represents(h, st.view) && st.pRegion == h.pRegion && a.Granted(st.view, st.pRegion)
    requires Displaceable(st.code, pages, a.pbTarget, a.cb) && Suppliable(st.Regions(), st.code, a.pNew)
    requires t.cbRestore == a.cb && t.pbDetour == a.pbDetour && a.pbTarget < Arm64Address.ADDRESS_LIMIT
    ensures Detoured(a.Done(st, ppPointer).code, a.pbTarget, a.Offer(st.view, st.pRegion).1, t)
  {
    hide Represents, Attach.Offer, Attach.Done, Attach.Granted, Patch, Write, Patched, Detoured, InReach, Suppliable;
    var p := a.Offer(st.view, st.pRegion).1;
    OfferNear(h, st, a);
    DoneCode(a, st, ppPointer, pages);
    WrittenIsPatched(st.code, a.pbTarget, p, a.cb);
    PatchDetours(a.Done(st, ppPointer).code, a.pbTarget, p, t);
  }

  /** What an attach that asks for mapped code asks for, whatever it is granted. */
  lemma AskedFor(e: Environment, pages: set<nat>, st: Status, ppPointer: nat, pDetour: nat, grants: Grants)
    requires Asks(e, pages, st, ppPointer, pDetour)
    ensures var a := AttachOf(e, st, ppPointer, pDetour, grants);
      Displaceable(st.code, pages, a.pbTarget, a.cb) && Suppliable(st.Regions(), st.code, a.pNew)
  {
    hide Displaceable, Suppliable;
  }

  /** The transaction of one attach before it is committed. */
  method OpenAttach(d: Detours, self: nat, ppPointer: nat, pDetour: nat, e: Environment, grants: Grants) returns (done: bool, p: nat)
    requires Idle(d) && self != 0 && Asks(e, d.prot.Keys, StatusOf(d), ppPointer, pDetour)
    modifies d, d.heap
    ensures d.Valid() && d.s_nPendingThreadId == self && Settled(d.heap.State(), d.heap.view) && Apart(d.heap.view, d.code)
    ensures LiveKept(old(d.heap.State()), old(d.heap.view), d.heap.State()) && old(d.heap.view.live) <= d.heap.view.live
    ensures d.code == old(d.code) && d.pointers == old(d.pointers)
    ensures d.prot.Keys == old(d.prot).Keys && d.s_fRetainRegions == old(d.s_fRetainRegions)
    ensures var a, st := old(AttachOf(e, StatusOf(d), ppPointer, pDetour, grants)), old(StatusOf(d));
      && done == a.Granted(st.view, st.pRegion)
      && (done ==>
          && (d.heap.view, p) == a.Offer(st.view, st.pRegion) && d.heap.s_pRegion == a.DefaultAfter(st.view, st.pRegion)
          && p !in st.view.live && d.heap.view.live == st.view.live + {p}
          && p in d.heap.trampolines
          && d.heap.trampolines[p] == Trampoline(a.pbTarget + a.cb, a.pbDetour, a.cb, Read(st.code, a.pbTarget, a.cb))
          && |d.s_pPendingOperations| == 1 && d.s_nPendingError == NO_ERROR && !d.s_pPendingOperations[0].fIsRemove
          && d.s_pPendingOperations[0].ppbPointer == ppPointer && d.s_pPendingOperations[0].pbTarget == a.pbTarget
          && d.s_pPendingOperations[0].pTrampoline == p)
      && (!done ==> d.s_pPendingOperations == [] && StatusOf(d) == a.Refused(st) && d.heap.view.live == st.view.live)
  {
    hide Represents, InTransaction, AllFilled, Settled, Apart, LiveKept, Allocated, Protect, RestoreProt, PendingProt, Recorded, Patch, ViewGrow,
         Regrown, NextDefault, FirstFit, IsRegion;
    var code := d.code;
    var pbTarget := e.CodeFromPointer(code, d.pointers[ppPointer]);
    ghost var h, v, st := d.heap.State(), d.heap.view, StatusOf(d);
    RegionsListed(h, v);
    assert d.heap.regions.Keys == st.Regions();
    var cb, pNew := e.Displaces(code, pbTarget), e.Supply(d.heap.regions.Keys, pbTarget);
    ShapeKnown(h, v);
    var begun := d.TransactionBegin(self, 0);
    var error, pRealTrampoline, pRealTarget, pRealDetour :=
      d.AttachEx(self, ppPointer, pDetour, q => e.CodeFromPointer(code, q), grants.noMemory, pNew, cb, grants.nProtect);
    p := pRealTrampoline;
    done := error == NO_ERROR && p != 0;
    if done {
      OfferIs(h, v, detour_2gb_below(pbTarget), detour_2gb_above(pbTarget), pNew);
      AttachSettled(h, v, d.heap.State(), d.heap.view, code, pNew, p);
    } else {
      RefusedIs(v, h.pRegion, detour_2gb_below(pbTarget), detour_2gb_above(pbTarget), pNew);
      SettledSame(h, v, d.heap.State(), d.heap.view);
      ApartGrown(v, d.heap.view, code, pNew);
      NothingPending(d.heap.view, d.heap.trampolines, d.Now(), d.world0, d.view0, d.added);
    }
  }

  /** One detach in a transaction of its own succeeds exactly if it is granted. */
  method DetachOne(d: Detours, self: nat, ppPointer: nat, pDetour: nat, e: Environment, grants: Grants, p: nat)
    returns (done: bool)
    requires Idle(d) && self != 0 && ppPointer != 0 && ppPointer in d.pointers && d.pointers[ppPointer] != 0 && pDetour != 0
    requires p in d.heap.view.live && p in d.heap.trampolines && e.CodeFromPointer(d.code, d.pointers[ppPointer]) == p
    requires Detours.Recognized(d.heap.trampolines[p], e.CodeFromPointer(d.code, pDetour))
    requires Mapped(d.Now(), Detours.TargetOf(d.heap.trampolines[p]), d.heap.trampolines[p].cbRestore)
    modifies d, d.heap
    ensures Idle(d) && LiveKept(old(d.heap.State()), d.heap.view, d.heap.State())
    ensures d.prot.Keys == old(d.prot).Keys && d.s_fRetainRegions == old(d.s_fRetainRegions)
    ensures done <==> !grants.noMemory && grants.nProtect == NO_ERROR
    ensures !done ==> StatusOf(d) == old(StatusOf(d))
    ensures done ==>
      var t := old(d.heap.trampolines[p]);
      && d.heap.view.live == old(d.heap.view.live) - {p}
      && StatusOf(d) == Detached(old(StatusOf(d)), d.s_fRetainRegions, ppPointer, p, Detours.TargetOf(t), t.rbRestore)
  {
    hide Represents, InTransaction, AllFilled, Settled, Apart, LiveKept, Protect, RestoreProt, PendingProt, Recorded, Pruned;
    var code := d.code;
    ghost var h, v := d.heap.State(), d.heap.view;
    ShapeKnown(h, v);
    var begun := d.TransactionBegin(self, 0);
    var error := d.Detach(self, ppPointer, pDetour, q => e.CodeFromPointer(code, q), grants.noMemory, d.heap.trampolines[p], grants.nProtect);
    done := error == NO_ERROR;
    if done {
      CommitDetach(d, self);
    } else {
      CommitNothing(d, self);
    }
  }

  lemma RefusedIs(v: View, pRegion: nat, pLo: nat, pHi: nat, pNew: nat)
    requires Known(v, pRegion)
    ensures Regrown(v, pRegion, pLo, pHi, pNew).live == v.live
    ensures var u := Regrown(v, pRegion, pLo, pHi, pNew); u.order == v.order || (pNew != 0 && u.order == [pNew] + v.order)
  {}

  lemma LiveContents(h: Heap, v: View, h': Heap, p: nat)
    requires LiveKept(h, v, h') && p in v.live
    ensures p in h.trampolines && p in h'.trampolines && h'.trampolines[p] == h.trampolines[p]
  {}

  lemma SettledSame(h: Heap, v: View, h': Heap, v': View)
    requires Settled(h, v) && LiveKept(h, v, h') && v'.live == v.live
    ensures Settled(h', v')
  {}

  lemma ApartSameKeys(v: View, code: map<nat, bv8>, code': map<nat, bv8>)
    requires Apart(v, code) && code'.Keys == code.Keys
    ensures Apart(v, code')
  {}

  /** Nothing to undo: the regions obtained are the only difference. */
  lemma NothingPending(v: View, ts: map<nat, Trampoline>, w: World, w0: World, v0: View, added: seq<nat>)
    requires InTransaction(v, ts, w, [], w0, v0, added)
    ensures v == GrowAll(v0, added) && w == w0
  {}

  lemma PendingWorld(v: View, ts: map<nat, Trampoline>, w: World, ops: seq<DetourOperation>, w0: World, v0: View, added: seq<nat>)
    requires InTransaction(v, ts, w, ops, w0, v0, added)
    ensures (forall o | o in ops :: o.pTrampoline in ts) && forall e | e in Entries(ops, ts) :: Sound(e)
    ensures w == w0.(prot := w.prot) && w.prot == PendingProt(w0.prot, Entries(ops, ts))
  {}

  lemma NoneCommitted(ts: map<nat, Trampoline>, v: View, prot: map<nat, nat>)
    ensures Entries([], ts) == [] && Removed(v, []) == v && RestoreProt(PendingProt(prot, []), []) == prot
    ensures forall code :: CommitCode(code, []) == code
    ensures forall pointers :: CommitPointers(pointers, []) == pointers
  {}

  lemma OneCommitted(ts: map<nat, Trampoline>, v: View, o: DetourOperation)
    requires o.pTrampoline in ts && forall e | e in Entries([o], ts) :: Sound(e)
    ensures Sound(Entry(o, ts[o.pTrampoline])) && Entries([o], ts) == [Entry(o, ts[o.pTrampoline])] && Removed(v, [o]) == Redo1(v, o)
    ensures forall code :: CommitCode(code, [Entry(o, ts[o.pTrampoline])]) == CommitCode1(code, Entry(o, ts[o.pTrampoline]))
    ensures forall pointers :: CommitPointers(pointers, [Entry(o, ts[o.pTrampoline])]) == CommitPointers1(pointers, Entry(o, ts[o.pTrampoline]))
  {
    assert [o][1..] == [];
    assert Entries([o], ts)[0] in Entries([o], ts);
    assert [Entry(o, ts[o.pTrampoline])][1..] == [];
  }

  lemma AttachSettled(h: Heap, v: View, h': Heap, v': View, code: map<nat, bv8>, pNew: nat, p: nat)
    requires Settled(h, v) && Apart(v, code) && LiveKept(h, v, h') && v'.live == v.live + {p} && p in h'.trampolines
    requires Represents(h', v') && (v'.order == v.order || (v'.order == [pNew] + v.order && forall a | a in code :: RegionOf(a) != pNew))
    requires h'.trampolines[p].pbRemain in code && h'.trampolines[p].pbRemain != 0
    ensures Settled(h', v') && Apart(v', code)
  {
    hide Settled, Apart, Represents, LiveKept, Remote, IsRegion, RegionOf, Usable;
    ApartGrown(v, v', code, pNew);
    LiveSlot(h', v', p);
    RegionKnown(h', v', RegionOf(p));
    ApartIsRemote(v', code, h'.trampolines[p], RegionOf(p));
    SettledByOne(h, v, h', v', p);
  }

  // ------------------------------------------------- Many operations at a time

  predicate Overwrites(e: Entry, a: nat) { e.o.pbTarget <= a < e.o.pbTarget + e.t.cbRestore }

  /** The trampoline holds the bytes of `code` that its operation displaces. */
  predicate Holds(e: Entry, code: map<nat, bv8>) { FoundAt(e.t.rbRestore, e.o.pbTarget, code) }

  predicate FoundAt(bytes: seq<bv8>, at: nat, code: map<nat, bv8>) {
    forall k | 0 <= k < |bytes| :: at + k in code && bytes[k] == code[at + k]
  }

  lemma {:induction false} OtherBytesKept(code: map<nat, bv8>, es: seq<Entry>, a: nat)
    requires (forall e | e in es :: Sound(e) && !Overwrites(e, a)) && a in code
    ensures a in CommitCode(code, es) && CommitCode(code, es)[a] == code[a]
    decreases |es|
  {
    hide Patch;
    if es != [] {
      assert es[0] in es;
      OtherBytesKept(CommitCode1(code, es[0]), es[1..], a);
    }
  }

  /** Detaches write nothing but what was there before the attaches. */
  lemma {:induction false} BytesRestored(before: map<nat, bv8>, code: map<nat, bv8>, ds: seq<Entry>, a: nat)
    requires (forall e | e in ds :: Sound(e) && e.o.fIsRemove && Holds(e, before)) && a in before && a in code
    requires code[a] == before[a] || exists e | e in ds :: Overwrites(e, a)
    ensures a in CommitCode(code, ds) && CommitCode(code, ds)[a] == before[a]
    decreases |ds|
  {
    hide Patch;
    if ds != [] {
      assert ds[0] in ds;
      BytesRestored(before, CommitCode1(code, ds[0]), ds[1..], a);
    }
  }

  lemma {:induction false} SameKeys(code: map<nat, bv8>, es: seq<Entry>)
    requires forall e | e in es :: Sound(e)
    ensures CommitCode(code, es).Keys == code.Keys
    decreases |es|
  {
    if es != [] {
      SameKeys(CommitCode1(code, es[0]), es[1..]);
    }
  }

  /** An operation of one list for each of the other, on the same target with the same trampoline. */
  ghost predicate Matched(es: seq<Entry>, ds: seq<Entry>) {
    forall e | e in es :: exists d | d in ds :: Matches(e, d)
  }

  predicate Matches(e: Entry, d: Entry) { e.o.pbTarget == d.o.pbTarget && e.t == d.t }

  lemma Match(es: seq<Entry>, ds: seq<Entry>, e: Entry) returns (d: Entry)
    requires Matched(es, ds) && e in es
    ensures d in ds && Matches(e, d)
  {
    d :| d in ds && Matches(e, d);
  }

  /** Any number of attaches committed together, then the detaches of the same trampolines committed
    * together in any order, restore the code, even if targets overlap: all attaches of a transaction
    * save the bytes from before its commit.
    */
  lemma AttachesUndone(code: map<nat, bv8>, es: seq<Entry>, ds: seq<Entry>)
    requires forall e | e in es :: Sound(e) && !e.o.fIsRemove && Holds(e, code)
    requires forall d | d in ds :: Sound(d) && d.o.fIsRemove
    requires Matched(es, ds) && Matched(ds, es)
    ensures CommitCode(CommitCode(code, es), ds) == code
  {
    hide CommitCode, Sound, Matched, Holds, Overwrites;
    forall d | d in ds
      ensures Holds(d, code)
    {
      var e := Match(ds, es, d);
      HoldsToo(e, d, code);
    }
    var patched := CommitCode(code, es);
    SameKeys(code, es);
    SameKeys(patched, ds);
    forall a | a in code
      ensures CommitCode(patched, ds)[a] == code[a]
    {
      if e :| e in es && Overwrites(e, a) {
        var d := Match(es, ds, e);
        OverwritesToo(e, d, a);
      } else {
        OtherBytesKept(code, es, a);
      }
      BytesRestored(code, patched, ds, a);
    }
  }

  lemma HoldsToo(e: Entry, d: Entry, code: map<nat, bv8>)
    requires Holds(e, code) && Matches(d, e)
    ensures Holds(d, code)
  {}

  lemma OverwritesToo(e: Entry, d: Entry, a: nat)
    requires Overwrites(e, a) && Matches(e, d)
    ensures Overwrites(d, a)
  {}

  // ------------------------------------------------------------ Nested attaches

  /** A client's hooks: attach, run the inner hooks, detach, and go on. The arguments say which
    * resources the system grants each attach and detach.
    */
  datatype Script =
    | Stop
    | Hook(ppPointer: nat, pDetour: nat, attach: Grants, detach: Grants, inner: Script, rest: Script)

  /** What happened, hook by hook: an attach that was refused leaves out its inner hooks. */
  datatype Trace =
    | End
    | Skipped(rest: Trace)
    | Ran(ppPointer: nat, pbTarget: nat, cb: nat, p: nat, inner: Trace, rest: Trace)

  /** What stays the same: the process, the mapped pages and whether idle regions are retained. */
  datatype Context = Context(e: Environment, pages: set<nat>, retain: bool)

  /** How a script goes from a status, or that it gets stuck. */
  datatype Course = Stuck | Completed(tr: Trace, last: Status)

  /** The pointer leads to the trampoline and the detour is recognized, so the hook can be taken off. */
  ghost predicate Removable(e: Environment, st: Status, ppPointer: nat, pDetour: nat, p: nat, pbDetour: nat) {
    && ppPointer in st.pointers && st.pointers[ppPointer] != 0 && e.CodeFromPointer(st.code, st.pointers[ppPointer]) == p
    && e.CodeFromPointer(st.code, pDetour) == pbDetour
  }

  /** The course of a script, computed before any of it is run: a hook that asks for unmapped code, or
    * whose pointer no longer leads to its trampoline, or whose detach is not granted, is where the
    * script gets stuck.
    */
  ghost function CourseOf(c: Context, s: Script, st: Status): Course {
    match s
    case Stop => Completed(End, st)
    case Hook(pp, pDetour, attach, detach, inner, rest) =>
      if !Asks(c.e, c.pages, st, pp, pDetour) then Stuck
      else
        var a := AttachOf(c.e, st, pp, pDetour, attach);
        if !a.Granted(st.view, st.pRegion) then
          Skipping(CourseOf(c, rest, a.Refused(st)))
        else
          var p := a.Offer(st.view, st.pRegion).1;
          match CourseOf(c, inner, a.Done(st, pp))
          case Stuck => Stuck
          case Completed(tr1, st1) =>
            if !Removable(c.e, st1, pp, pDetour, p, a.pbDetour) || detach.noMemory || detach.nProtect != NO_ERROR then Stuck
            else Running(pp, a, p, tr1, CourseOf(c, rest, a.Undone(st, st1, c.retain, pp)))
  }

  function Skipping(course: Course): Course {
    if course.Stuck? then Stuck else course.(tr := Skipped(course.tr))
  }

  function Running(pp: nat, a: Attach, p: nat, tr1: Trace, course: Course): Course {
    if course.Stuck? then Stuck else course.(tr := Ran(pp, a.pbTarget, a.cb, p, tr1, course.tr))
  }

  /** The user's pointers after a trace: attaching leads one to the trampoline, detaching to the
    * function.
    */
  function Left(tr: Trace, pointers: map<nat, nat>): map<nat, nat> {
    match tr
    case End => pointers
    case Skipped(rest) => Left(rest, pointers)
    case Ran(pp, pbTarget, _, p, inner, rest) => Left(rest, Left(inner, pointers[pp := p])[pp := pbTarget])
  }

  /** Each hook was attached to the function its pointer led to at that moment; an inner hook sees the
    * code with the outer patch, the next one sees the code as it was.
    */
  ghost predicate Explains(tr: Trace, s: Script, e: Environment, code: map<nat, bv8>, pointers: map<nat, nat>) {
    match (s, tr)
    case (Stop, End) => true
    case (Hook(_, _, _, _, _, rest), Skipped(tr2)) => Explains(tr2, rest, e, code, pointers)
    case (Hook(pp, pDetour, _, detach, inner, rest), Ran(qq, pbTarget, cb, p, tr1, tr2)) =>
      && detach == Grants(false, NO_ERROR) && qq == pp && pp in pointers && pbTarget == e.CodeFromPointer(code, pointers[pp]) && cb == e.Displaces(code, pbTarget)
      && pbTarget != e.CodeFromPointer(code, pDetour) && SIZE_OF_JMP <= cb && cb % 4 == 0
      && Explains(tr1, inner, e, Write(code, pbTarget, Patch(pbTarget, p, cb)), pointers[pp := p])
      && Explains(tr2, rest, e, code, Left(tr1, pointers[pp := p])[pp := pbTarget])
    case _ => false
  }

  // The steps of a course, one per case.

  lemma CourseAsks(c: Context, s: Script, st: Status)
    requires s.Hook? && CourseOf(c, s, st).Completed?
    ensures Asks(c.e, c.pages, st, s.ppPointer, s.pDetour)
  {
    hide Asks;
  }

  lemma CourseSkips(c: Context, s: Script, st: Status)
    requires s.Hook? && Asks(c.e, c.pages, st, s.ppPointer, s.pDetour)
    requires !AttachOf(c.e, st, s.ppPointer, s.pDetour, s.attach).Granted(st.view, st.pRegion)
    ensures CourseOf(c, s, st) == Skipping(CourseOf(c, s.rest, AttachOf(c.e, st, s.ppPointer, s.pDetour, s.attach).Refused(st)))
  {
    hide AttachOf, Attach.Granted, Attach.Refused;
  }

  lemma StopCourse(c: Context, st: Status)
    ensures CourseOf(c, Stop, st) == Completed(End, st)
  {}

  lemma AskedIs(e: Environment, pages: set<nat>, st: Status, pp: nat, pDetour: nat, grants: Grants)
    requires pp in st.pointers
    ensures var a := AttachOf(e, st, pp, pDetour, grants);
      && a.pbTarget == e.CodeFromPointer(st.code, st.pointers[pp]) && a.pbDetour == e.CodeFromPointer(st.code, pDetour)
      && a.cb == e.Displaces(st.code, a.pbTarget)
      && Asks(e, pages, st, pp, pDetour)
      == (&& pp != 0 && st.pointers[pp] != 0 && pDetour != 0
          && Displaceable(st.code, pages, a.pbTarget, a.cb) && Suppliable(st.Regions(), st.code, e.Supply(st.Regions(), a.pbTarget)))
  {}

  lemma AskedReadable(e: Environment, pages: set<nat>, st: Status, pp: nat, pDetour: nat, grants: Grants)
    requires Asks(e, pages, st, pp, pDetour)
    ensures var a := AttachOf(e, st, pp, pDetour, grants); forall x | a.pbTarget <= x < a.pbTarget + a.cb :: x in st.code
  {}

  lemma CourseEnters(c: Context, s: Script, st: Status)
    requires s.Hook? && Asks(c.e, c.pages, st, s.ppPointer, s.pDetour)
    requires AttachOf(c.e, st, s.ppPointer, s.pDetour, s.attach).Granted(st.view, st.pRegion)
    ensures CourseOf(c, s.inner, AttachOf(c.e, st, s.ppPointer, s.pDetour, s.attach).Done(st, s.ppPointer)).Stuck? ==> CourseOf(c, s, st).Stuck?
  {
    hide AttachOf, Attach.Granted, Attach.Done, Attach.Undone, Attach.Offer, Removable;
  }

  lemma CourseRuns(c: Context, s: Script, st: Status, a: Attach, p: nat, tr1: Trace, st1: Status)
    requires s.Hook? && Asks(c.e, c.pages, st, s.ppPointer, s.pDetour)
    requires a == AttachOf(c.e, st, s.ppPointer, s.pDetour, s.attach) && a.Granted(st.view, st.pRegion)
    requires p == a.Offer(st.view, st.pRegion).1 && CourseOf(c, s.inner, a.Done(st, s.ppPointer)) == Completed(tr1, st1)
    ensures CourseOf(c, s, st)
         == if !Removable(c.e, st1, s.ppPointer, s.pDetour, p, a.pbDetour) || s.detach.noMemory || s.detach.nProtect != NO_ERROR then Stuck
            else (AskedReadable(c.e, c.pages, st, s.ppPointer, s.pDetour, s.attach);
                  Running(s.ppPointer, a, p, tr1, CourseOf(c, s.rest, a.Undone(st, st1, c.retain, s.ppPointer))))
  {
    AskedReadable(c.e, c.pages, st, s.ppPointer, s.pDetour, s.attach);
    hide AttachOf, Attach.Granted, Attach.Done, Attach.Undone, Attach.Offer, Removable;
  }

  lemma DoneCode(a: Attach, st: Status, pp: nat, pages: set<nat>)
    requires a.Granted(st.view, st.pRegion) && Displaceable(st.code, pages, a.pbTarget, a.cb)
    ensures var p := a.Offer(st.view, st.pRegion).1;
      && SIZE_OF_JMP <= a.cb && a.cb % 4 == 0 && a.pbTarget != a.pbDetour
      && a.Done(st, pp).code == Write(st.code, a.pbTarget, Patch(a.pbTarget, p, a.cb)) && a.Done(st, pp).pointers == st.pointers[pp := p]
  {
    hide Attach.Offer, Patch, Write;
  }

  lemma UndoneCode(a: Attach, st: Status, st1: Status, retain: bool, pp: nat, pages: set<nat>)
    requires a.Granted(st.view, st.pRegion) && Displaceable(st.code, pages, a.pbTarget, a.cb) && st1.code == a.Done(st, pp).code
    ensures a.Undone(st, st1, retain, pp).code == st.code && a.Undone(st, st1, retain, pp).pointers == st1.pointers[pp := a.pbTarget]
  {
    hide Attach.Offer, Patch, Write, Read, Attach.Granted, Pruned;
    DoneCode(a, st, pp, pages);
    WriteBack(st.code, a.pbTarget, Patch(a.pbTarget, a.Offer(st.view, st.pRegion).1, a.cb));
  }

  lemma RefusedCode(a: Attach, st: Status)
    ensures a.Refused(st).code == st.code && a.Refused(st).pointers == st.pointers
  {}

  /** A script of nested and consecutive hooks, on any functions, that gets to its end leaves every byte
    * of code as it was; the pointers are those its trace leaves, and the trace has a hook, or a skipped
    * one, for each of the script's.
    */
  lemma {:induction false} CourseRestores(c: Context, s: Script, st: Status)
    requires CourseOf(c, s, st).Completed?
    ensures CourseOf(c, s, st).last.code == st.code && CourseOf(c, s, st).last.pointers == Left(CourseOf(c, s, st).tr, st.pointers)
    ensures Explains(CourseOf(c, s, st).tr, s, c.e, st.code, st.pointers)
    decreases s
  {
    if s.Hook? {
      CourseAsks(c, s, st);
      var a := AttachOf(c.e, st, s.ppPointer, s.pDetour, s.attach);
      if a.Granted(st.view, st.pRegion) {
        CourseRunsRestores(c, s, st, a);
      } else {
        hide AttachOf, Asks, Attach.Granted, Attach.Refused, CourseOf;
        CourseSkips(c, s, st);
        RefusedCode(a, st);
        CourseRestores(c, s.rest, a.Refused(st));
      }
    }
  }

  lemma {:induction false} CourseRunsRestores(c: Context, s: Script, st: Status, a: Attach)
    requires s.Hook? && Asks(c.e, c.pages, st, s.ppPointer, s.pDetour) && CourseOf(c, s, st).Completed?
    requires a == AttachOf(c.e, st, s.ppPointer, s.pDetour, s.attach) && a.Granted(st.view, st.pRegion)
    ensures CourseOf(c, s, st).last.code == st.code && CourseOf(c, s, st).last.pointers == Left(CourseOf(c, s, st).tr, st.pointers)
    ensures Explains(CourseOf(c, s, st).tr, s, c.e, st.code, st.pointers)
    decreases s, 0
  {
    assert Displaceable(st.code, c.pages, a.pbTarget, a.cb);
    AskedReadable(c.e, c.pages, st, s.ppPointer, s.pDetour, s.attach);
    hide Asks, Attach.Granted, Attach.Done, Attach.Undone, Attach.Offer, CourseOf, Patch, Write, Read, Displaceable;
    var pp, p := s.ppPointer, a.Offer(st.view, st.pRegion).1;
    CourseEnters(c, s, st);
    CourseRestores(c, s.inner, a.Done(st, pp));
    var Completed(tr1, st1) := CourseOf(c, s.inner, a.Done(st, pp));
    CourseRuns(c, s, st, a, p, tr1, st1);
    var next := a.Undone(st, st1, c.retain, pp);
    CourseRestores(c, s.rest, next);
    DoneCode(a, st, pp, c.pages);
    UndoneCode(a, st, st1, c.retain, pp, c.pages);
  }

  lemma ItselfKept(d: Detours)
    requires Idle(d)
    ensures LiveKept(d.heap.State(), d.heap.view, d.heap.State())
  {
    ShapeKnown(d.heap.State(), d.heap.view);
  }

  /** Running a script: it gets to its end exactly if its course, computed beforehand, does, and then
    * trace and status are those of the course.
    */
  method Play(d: Detours, self: nat, s: Script, e: Environment) returns (ok: bool, tr: Trace)
    requires Idle(d) && self != 0
    modifies d, d.heap
    ensures Idle(d)
    ensures var course := CourseOf(Context(e, old(d.prot.Keys), old(d.s_fRetainRegions)), s, old(StatusOf(d)));
      && (ok <==> course.Completed?)
      && (ok ==> tr == course.tr && StatusOf(d) == course.last)
    ensures ok ==> d.code == old(d.code) && d.pointers == Left(tr, old(d.pointers)) && Explains(tr, s, e, old(d.code), old(d.pointers))
    ensures ok ==>
      && d.prot.Keys == old(d.prot).Keys && d.s_fRetainRegions == old(d.s_fRetainRegions)
      && d.heap.view.live == old(d.heap.view.live) && LiveKept(old(d.heap.State()), old(d.heap.view), d.heap.State())
    decreases s
  {
    hide Idle, LiveKept, Patch, Write, Read, CourseOf, AttachOf, Asks, Displaceable, Suppliable,
         Attach.Offer, Attach.Granted, Attach.Refused, Attach.Done, Attach.Undone, Detached;
    tr := End;
    ghost var h, v, st, c := d.heap.State(), d.heap.view, StatusOf(d), Context(e, d.prot.Keys, d.s_fRetainRegions);
    ItselfKept(d);
    if s.Stop? {
      StopCourse(c, st);
      return true, End;
    }
    if CourseOf(c, s, st).Completed? {
      CourseRestores(c, s, st);
      CourseAsks(c, s, st);
      AskedPlainly(c, st, s.ppPointer, s.pDetour);
    }
    var Hook(pp, pDetour, attach, detach, inner, rest) := s;
    if pp == 0 || pp !in d.pointers || d.pointers[pp] == 0 || pDetour == 0 {
      return false, End;
    }
    var pbTarget, pbDetour := e.CodeFromPointer(d.code, d.pointers[pp]), e.CodeFromPointer(d.code, pDetour);
    var cb := e.Displaces(d.code, pbTarget);
    Listed(d);
    AskedIs(e, c.pages, st, pp, pDetour, attach);
    if !Displaceable(d.code, d.prot.Keys, pbTarget, cb) || !Suppliable(d.heap.regions.Keys, d.code, e.Supply(d.heap.regions.Keys, pbTarget)) {
      return false, End;
    }
    ghost var a := AttachOf(e, st, pp, pDetour, attach);
    AskedReadable(e, c.pages, st, pp, pDetour, attach);
    var attached, p := AttachOne(d, self, pp, pDetour, e, attach);
    ghost var h1, v1 := d.heap.State(), d.heap.view;
    if !attached {
      CourseSkips(c, s, st);
      ok, tr := Play(d, self, rest, e);
      if ok {
        tr := Skipped(tr);
        LiveKeptThrice(h, v, h1, v1, d.heap.State());
      }
      return;
    }
    CourseEnters(c, s, st);
    var tr1, tr2;
    ok, tr1 := Play(d, self, inner, e);
    if !ok {
      return;
    }
    ghost var h2, v2, st1 := d.heap.State(), d.heap.view, StatusOf(d);
    LiveContents(h1, v1, h2, p);
    CourseRuns(c, s, st, a, p, tr1, st1);
    if pp !in d.pointers || d.pointers[pp] == 0 || e.CodeFromPointer(d.code, d.pointers[pp]) != p
      || e.CodeFromPointer(d.code, pDetour) != pbDetour {
      return false, End;
    }
    CourseRestores(c, inner, a.Done(st, pp));
    DoneMapped(a, st, pp, c.pages, d);
    var detached := DetachOne(d, self, pp, pDetour, e, detach, p);
    if !detached {
      return false, End;
    }
    ghost var h3, v3 := d.heap.State(), d.heap.view;
    UndoneIs(a, st, st1, c.retain, pp);
    ok, tr2 := Play(d, self, rest, e);
    if ok {
      LiveKeptBack(h, v, h1, v1, h2, v2, h3, v3);
      LiveKeptThrice(h, v, h3, v3, d.heap.State());
      tr := Ran(pp, pbTarget, cb, p, tr1, tr2);
    }
  }

  lemma AskedPlainly(c: Context, st: Status, pp: nat, pDetour: nat)
    requires Asks(c.e, c.pages, st, pp, pDetour)
    ensures pp != 0 && pp in st.pointers && st.pointers[pp] != 0 && pDetour != 0
  {}

  /** The displaced bytes stay mapped, and the trampoline is recognized. */
  lemma DoneMapped(a: Attach, st: Status, pp: nat, pages: set<nat>, d: Detours)
    requires a.Granted(st.view, st.pRegion) && Displaceable(st.code, pages, a.pbTarget, a.cb)
    requires d.prot.Keys == pages && d.code == a.Done(st, pp).code && |Read(st.code, a.pbTarget, a.cb)| == a.cb
    ensures var t := Trampoline(a.pbTarget + a.cb, a.pbDetour, a.cb, Read(st.code, a.pbTarget, a.cb));
      && Detours.Recognized(t, a.pbDetour) && Detours.TargetOf(t) == a.pbTarget && Mapped(d.Now(), a.pbTarget, a.cb)
  {
    DoneCode(a, st, pp, pages);
  }

  lemma UndoneIs(a: Attach, st: Status, st1: Status, retain: bool, pp: nat)
    requires forall x | a.pbTarget <= x < a.pbTarget + a.cb :: x in st.code
    ensures a.Undone(st, st1, retain, pp)
         == Detached(st1, retain, pp, a.Offer(st.view, st.pRegion).1, a.pbTarget, Read(st.code, a.pbTarget, a.cb))
  {}

  lemma Listed(d: Detours)
    requires Idle(d)
    ensures d.heap.regions.Keys == StatusOf(d).Regions()
  {
    RegionsListed(d.heap.State(), d.heap.view);
  }

  lemma LiveKeptThrice(h: Heap, v: View, h1: Heap, v1: View, h2: Heap)
    requires LiveKept(h, v, h1) && LiveKept(h1, v1, h2) && v1.live == v.live
    ensures LiveKept(h, v, h2)
  {}

  lemma LiveKeptBack(h: Heap, v: View, h1: Heap, v1: View, h2: Heap, v2: View, h3: Heap, v3: View)
    requires LiveKept(h, v, h1) && LiveKept(h1, v1, h2) && LiveKept(h2, v3, h3) && v.live <= v1.live && v3.live == v.live
    ensures LiveKept(h, v, h3)
  {}

  // ------------------------------------------------------- A process that answers well

  /** Whatever the code at its addresses: a function pointer leads to a function that can be displaced,
    * a detour to itself, an address in a block without code to itself, and new regions are free.
    */
  ghost predicate Steady(c: Context, addresses: set<nat>, functions: set<nat>, detours: set<nat>) {
    && 0 !in functions && 0 !in detours
    && forall code: map<nat, bv8> | code.Keys == addresses :: SteadyOn(c, code, functions, detours)
  }

  ghost predicate SteadyOn(c: Context, code: map<nat, bv8>, functions: set<nat>, detours: set<nat>) {
    && (forall x | x in functions ::
          var t := c.e.CodeFromPointer(code, x); t in functions && Displaceable(code, c.pages, t, c.e.Displaces(code, t)))
    && (forall x | x in detours :: c.e.CodeFromPointer(code, x) == x)
    && (forall x | (forall a | a in code :: RegionOf(a) != RegionOf(x)) :: c.e.CodeFromPointer(code, x) == x)
    && (forall regions, x :: Suppliable(regions, code, c.e.Supply(regions, x)))
  }

  /** The script hooks pointers of the program, none within a hook of the same pointer, and every detach
    * is granted.
    */
  predicate Orderly(s: Script, pointers: set<nat>, busy: set<nat>, detours: set<nat>) {
    match s
    case Stop => true
    case Hook(pp, pDetour, _, detach, inner, rest) =>
      && pp != 0 && pp in pointers && pp !in busy && pDetour in detours && detach == Grants(false, NO_ERROR)
      && Orderly(inner, pointers, busy + {pp}, detours) && Orderly(rest, pointers, busy, detours)
  }

  /** Free slots lie in their regions, and those apart from the code. */
  ghost predicate Tidy(v: View, code: map<nat, bv8>) {
    Apart(v, code) && forall r | r in v.order :: r in v.free && forall p | p in v.free[r] :: RegionOf(p) == r
  }

  /** The pointers that are not busy lead to functions. */
  predicate Aimed(pointers: map<nat, nat>, busy: set<nat>, functions: set<nat>) {
    forall q | q in pointers && q !in busy :: pointers[q] in functions
  }

  lemma NewSlotsLieThere(r: nat)
    requires IsRegion(r)
    ensures RegionOf(Slot(r, 2)) == r && forall p | p in SlotsFrom(r, 2) :: RegionOf(p) == r
  {
    hide IsSlot, SlotsFrom, IsRegion, RegionOf, Slot;
    SlotIsSlot(r, 2, 0);
    SlotRegion(r, Slot(r, 2));
    SlotsFromAre(r, 2);
    forall p | p in SlotsFrom(r, 2)
      ensures RegionOf(p) == r
    {
      UsableIsSlot(r, p);
      SlotRegion(r, p);
    }
  }

  lemma GrowTidy(v: View, code: map<nat, bv8>, r: nat)
    requires Tidy(v, code) && IsRegion(r) && forall a | a in code :: RegionOf(a) != r
    ensures Tidy(ViewGrow(v, r), code)
  {
    hide SlotsFrom, IsRegion, RegionOf;
    NewSlotsLieThere(r);
  }

  lemma TakeTidy(v: View, code: map<nat, bv8>, r: nat)
    requires Tidy(v, code) && r in v.order && v.free[r] != []
    ensures Tidy(ViewTake(v, r), code) && forall a | a in code :: RegionOf(a) != RegionOf(v.free[r][0])
  {
    hide RegionOf;
    assert v.free[r][0] in v.free[r];
    assert forall p | p in v.free[r][1..] :: p in v.free[r];
  }

  lemma OfferTidy(a: Attach, st: Status)
    requires Tidy(st.view, st.code) && Suppliable(st.Regions(), st.code, a.pNew)
    ensures var (v, p) := a.Offer(st.view, st.pRegion);
      && Tidy(v, st.code) && (p != 0 ==> forall x | x in st.code :: RegionOf(x) != RegionOf(p))
    ensures Tidy(a.Refused(st).view, st.code)
  {
    hide Tidy, IsRegion, RegionOf, Serves, FirstFit, ViewTake, ViewGrow, SlotsFrom, Slot;
    var v := st.view;
    if Known(v, st.pRegion) {
      var pLo, pHi := detour_2gb_below(a.pbTarget), detour_2gb_above(a.pbTarget);
      var r := Chosen(v, st.pRegion, pLo, pHi);
      if r != 0 && v.free[r] != [] {
        TakeTidy(v, st.code, r);
      }
      if a.pNew != 0 {
        GrowTidy(v, st.code, a.pNew);
        GrowFront(v, a.pNew);
        TakeTidy(ViewGrow(v, a.pNew), st.code, a.pNew);
      }
    }
  }

  lemma DetachedTidy(st: Status, retain: bool, pp: nat, p: nat, pbTarget: nat, rbRestore: seq<bv8>)
    requires Tidy(st.view, st.code)
    ensures Tidy(Detached(st, retain, pp, p, pbTarget, rbRestore).view, st.code)
  {
    hide RegionOf, Write;
  }

  /** What holds of a status between hooks when the process answers well. */
  ghost predicate InOrder(c: Context, st: Status, busy: set<nat>, functions: set<nat>, detours: set<nat>) {
    && Steady(c, st.code.Keys, functions, detours) && Tidy(st.view, st.code) && Aimed(st.pointers, busy, functions)
  }

  /** The busy pointers are as they were. */
  predicate BusyKept(st: Status, last: Status, busy: set<nat>) {
    && last.code == st.code && last.pointers.Keys == st.pointers.Keys
    && forall q | q in st.pointers && q in busy :: last.pointers[q] == st.pointers[q]
  }

  lemma OrderlyAsks(c: Context, s: Script, st: Status, busy: set<nat>, functions: set<nat>, detours: set<nat>) returns (a: Attach)
    requires InOrder(c, st, busy, functions, detours) && s.Hook? && Orderly(s, st.pointers.Keys, busy, detours)
    ensures Asks(c.e, c.pages, st, s.ppPointer, s.pDetour) && a == AttachOf(c.e, st, s.ppPointer, s.pDetour, s.attach)
    ensures a.pbTarget in functions && a.pbDetour == s.pDetour && Displaceable(st.code, c.pages, a.pbTarget, a.cb)
    ensures Suppliable(st.Regions(), st.code, a.pNew)
  {
    hide Displaceable, Suppliable, Tidy, Orderly;
    OrderlyHook(s, st.pointers.Keys, busy, detours);
    assert SteadyOn(c, st.code, functions, detours);
    a := AttachOf(c.e, st, s.ppPointer, s.pDetour, s.attach);
    assert st.pointers[s.ppPointer] in functions;
  }

  lemma OrderlyHook(s: Script, pointers: set<nat>, busy: set<nat>, detours: set<nat>)
    requires s.Hook? && Orderly(s, pointers, busy, detours)
    ensures s.ppPointer != 0 && s.ppPointer in pointers && s.ppPointer !in busy && s.pDetour in detours && s.detach == Grants(false, NO_ERROR)
    ensures Orderly(s.inner, pointers, busy + {s.ppPointer}, detours) && Orderly(s.rest, pointers, busy, detours)
  {}

  lemma RefusedInOrder(c: Context, st: Status, a: Attach, busy: set<nat>, functions: set<nat>, detours: set<nat>)
    requires InOrder(c, st, busy, functions, detours) && Suppliable(st.Regions(), st.code, a.pNew)
    ensures InOrder(c, a.Refused(st), busy, functions, detours) && BusyKept(st, a.Refused(st), busy)
  {
    hide Tidy, Suppliable, Steady, Aimed, Attach.Offer;
    OfferTidy(a, st);
    RefusedCode(a, st);
  }

  lemma DoneInOrder(c: Context, st: Status, a: Attach, pp: nat, busy: set<nat>, functions: set<nat>, detours: set<nat>)
    requires InOrder(c, st, busy, functions, detours) && Suppliable(st.Regions(), st.code, a.pNew)
    requires a.Granted(st.view, st.pRegion) && Displaceable(st.code, c.pages, a.pbTarget, a.cb) && pp in st.pointers && pp !in busy
    ensures InOrder(c, a.Done(st, pp), busy + {pp}, functions, detours)
    ensures a.Done(st, pp).pointers == st.pointers[pp := a.Offer(st.view, st.pRegion).1]
    ensures forall x | x in st.code :: RegionOf(x) != RegionOf(a.Offer(st.view, st.pRegion).1)
    ensures a.Done(st, pp).code.Keys == st.code.Keys
  {
    hide Tidy, Suppliable, Steady, Attach.Offer, Patch, Write, RegionOf, Displaceable;
    OfferTidy(a, st);
    DoneCode(a, st, pp, c.pages);
    var p := a.Offer(st.view, st.pRegion).1;
    TidyOnKeys(a.Offer(st.view, st.pRegion).0, st.code, a.Done(st, pp).code);
  }

  lemma SteadyResolves(c: Context, code: map<nat, bv8>, p: nat, pDetour: nat, functions: set<nat>, detours: set<nat>)
    requires Steady(c, code.Keys, functions, detours) && pDetour in detours
    requires forall x | x in code :: RegionOf(x) != RegionOf(p)
    ensures c.e.CodeFromPointer(code, p) == p && c.e.CodeFromPointer(code, pDetour) == pDetour
  {
    hide RegionOf, Displaceable, Suppliable;
    assert SteadyOn(c, code, functions, detours);
  }

  lemma UndoneTidy(a: Attach, st: Status, st1: Status, retain: bool, pp: nat)
    requires (forall x | a.pbTarget <= x < a.pbTarget + a.cb :: x in st.code) && Tidy(st1.view, st1.code)
    ensures Tidy(a.Undone(st, st1, retain, pp).view, st1.code)
  {
    hide Tidy, Attach.Offer, Attach.Undone, Detached;
    UndoneIs(a, st, st1, retain, pp);
    DetachedTidy(st1, retain, pp, a.Offer(st.view, st.pRegion).1, a.pbTarget, Read(st.code, a.pbTarget, a.cb));
  }

  lemma InnerKept(st: Status, done: Status, st1: Status, pp: nat, p: nat, busy: set<nat>)
    requires done.pointers == st.pointers[pp := p] && BusyKept(done, st1, busy + {pp}) && pp in st.pointers && pp !in busy
    ensures pp in st1.pointers && st1.pointers[pp] == p && st1.pointers.Keys == st.pointers.Keys && st1.code == done.code
    ensures forall q | q in st.pointers && q in busy :: st1.pointers[q] == st.pointers[q]
  {
    assert done.pointers.Keys == st.pointers.Keys;
  }

  lemma BusyKeptTwice(st: Status, next: Status, last: Status, busy: set<nat>)
    requires BusyKept(st, next, busy) && BusyKept(next, last, busy)
    ensures BusyKept(st, last, busy)
  {}

  lemma UndonePointers(st: Status, st1: Status, next: Status, pp: nat, pbTarget: nat, busy: set<nat>, functions: set<nat>)
    requires next.pointers == st1.pointers[pp := pbTarget] && next.code == st.code && pp in st.pointers && pp !in busy && pbTarget in functions
    requires st1.pointers.Keys == st.pointers.Keys && Aimed(st1.pointers, busy + {pp}, functions)
    requires forall q | q in st.pointers && q in busy :: st1.pointers[q] == st.pointers[q]
    ensures Aimed(next.pointers, busy, functions) && BusyKept(st, next, busy)
  {}

  lemma UndoneInOrder(c: Context, st: Status, st1: Status, a: Attach, pp: nat, busy: set<nat>, functions: set<nat>, detours: set<nat>)
    requires InOrder(c, st, busy, functions, detours) && InOrder(c, st1, busy + {pp}, functions, detours)
    requires a.Granted(st.view, st.pRegion) && Displaceable(st.code, c.pages, a.pbTarget, a.cb) && a.pbTarget in functions
    requires st1.code == a.Done(st, pp).code && st1.pointers.Keys == st.pointers.Keys && pp in st.pointers && pp !in busy
    requires forall q | q in st.pointers && q in busy :: st1.pointers[q] == st.pointers[q]
    ensures forall x | a.pbTarget <= x < a.pbTarget + a.cb :: x in st.code
    ensures var next := a.Undone(st, st1, c.retain, pp); InOrder(c, next, busy, functions, detours) && BusyKept(st, next, busy)
  {
    assert forall x | a.pbTarget <= x < a.pbTarget + a.cb :: x in st.code;
    hide Tidy, Steady, Aimed, BusyKept, Attach.Offer, Attach.Undone, Attach.Done, Attach.Granted, Detached, Displaceable, Patch, Write;
    var next := a.Undone(st, st1, c.retain, pp);
    UndoneCode(a, st, st1, c.retain, pp, c.pages);
    UndoneTidy(a, st, st1, c.retain, pp);
    DoneCode(a, st, pp, c.pages);
    assert st1.code.Keys == st.code.Keys;
    TidyOnKeys(next.view, st1.code, st.code);
    UndonePointers(st, st1, next, pp, a.pbTarget, busy, functions);
  }

  lemma TidyOnKeys(v: View, code: map<nat, bv8>, code': map<nat, bv8>)
    requires Tidy(v, code) && code'.Keys == code.Keys
    ensures Tidy(v, code')
  {
    hide RegionOf;
  }

  /** In a process that answers well, an orderly script gets to its end, whichever of its attaches are
    * granted.
    */
  lemma {:induction false} OrderlyCompletes(c: Context, s: Script, st: Status, busy: set<nat>, functions: set<nat>, detours: set<nat>)
    requires InOrder(c, st, busy, functions, detours) && Orderly(s, st.pointers.Keys, busy, detours)
    ensures CourseOf(c, s, st).Completed?
    ensures InOrder(c, CourseOf(c, s, st).last, busy, functions, detours) && BusyKept(st, CourseOf(c, s, st).last, busy)
    decreases s
  {
    if s.Stop? {
      StopCourse(c, st);
      return;
    }
    var pp := s.ppPointer;
    OrderlyHook(s, st.pointers.Keys, busy, detours);
    var a := OrderlyAsks(c, s, st, busy, functions, detours);
    if !a.Granted(st.view, st.pRegion) {
      hide CourseOf, InOrder, AttachOf, Asks, Attach.Granted, Attach.Refused, Orderly, Displaceable, Suppliable;
      CourseSkips(c, s, st);
      RefusedInOrder(c, st, a, busy, functions, detours);
      OrderlyCompletes(c, s.rest, a.Refused(st), busy, functions, detours);
    } else {
      OrderlyRuns(c, s, st, a, busy, functions, detours);
    }
  }

  lemma {:induction false} OrderlyRuns(c: Context, s: Script, st: Status, a: Attach, busy: set<nat>, functions: set<nat>, detours: set<nat>)
    requires InOrder(c, st, busy, functions, detours) && s.Hook? && Orderly(s, st.pointers.Keys, busy, detours)
    requires Asks(c.e, c.pages, st, s.ppPointer, s.pDetour) && a == AttachOf(c.e, st, s.ppPointer, s.pDetour, s.attach)
    requires a.pbTarget in functions && a.pbDetour == s.pDetour && Displaceable(st.code, c.pages, a.pbTarget, a.cb)
    requires Suppliable(st.Regions(), st.code, a.pNew) && a.Granted(st.view, st.pRegion)
    ensures CourseOf(c, s, st).Completed?
    ensures InOrder(c, CourseOf(c, s, st).last, busy, functions, detours) && BusyKept(st, CourseOf(c, s, st).last, busy)
    decreases s, 0
  {
    hide CourseOf, InOrder, AttachOf, Asks, Attach.Granted, Attach.Offer, Attach.Done, Attach.Undone, Orderly, Displaceable, Suppliable, BusyKept;
    var pp := s.ppPointer;
    AskedReadable(c.e, c.pages, st, pp, s.pDetour, s.attach);
    OrderlyHook(s, st.pointers.Keys, busy, detours);
    DoneInOrder(c, st, a, pp, busy, functions, detours);
    var done := a.Done(st, pp);
    assert done.pointers.Keys == st.pointers.Keys;
    OrderlyCompletes(c, s.inner, done, busy + {pp}, functions, detours);
    var Completed(tr1, st1) := CourseOf(c, s.inner, done);
    TakenOff(c, s, st, a, tr1, st1, busy, functions, detours);
    var next := a.Undone(st, st1, c.retain, pp);
    KeysKept(st, next, busy);
    OrderlyCompletes(c, s.rest, next, busy, functions, detours);
    BusyKeptTwice(st, next, CourseOf(c, s.rest, next).last, busy);
  }

  /** Behind the inner hooks the outer one can be taken off. */
  lemma TakenOff(c: Context, s: Script, st: Status, a: Attach, tr1: Trace, st1: Status, busy: set<nat>, functions: set<nat>, detours: set<nat>)
    requires InOrder(c, st, busy, functions, detours) && s.Hook? && Orderly(s, st.pointers.Keys, busy, detours)
    requires Asks(c.e, c.pages, st, s.ppPointer, s.pDetour) && a == AttachOf(c.e, st, s.ppPointer, s.pDetour, s.attach)
    requires a.pbTarget in functions && a.pbDetour == s.pDetour && Displaceable(st.code, c.pages, a.pbTarget, a.cb)
    requires Suppliable(st.Regions(), st.code, a.pNew) && a.Granted(st.view, st.pRegion)
    requires CourseOf(c, s.inner, a.Done(st, s.ppPointer)) == Completed(tr1, st1)
    requires InOrder(c, st1, busy + {s.ppPointer}, functions, detours) && BusyKept(a.Done(st, s.ppPointer), st1, busy + {s.ppPointer})
    ensures forall x | a.pbTarget <= x < a.pbTarget + a.cb :: x in st.code
    ensures var next := a.Undone(st, st1, c.retain, s.ppPointer);
      && CourseOf(c, s, st) == Running(s.ppPointer, a, a.Offer(st.view, st.pRegion).1, tr1, CourseOf(c, s.rest, next))
      && InOrder(c, next, busy, functions, detours) && BusyKept(st, next, busy)
  {
    hide CourseOf, InOrder, AttachOf, Asks, Attach.Granted, Attach.Offer, Attach.Done, Attach.Undone, Orderly, Displaceable, Suppliable, BusyKept,
         Steady, RegionOf;
    var pp, p := s.ppPointer, a.Offer(st.view, st.pRegion).1;
    AskedReadable(c.e, c.pages, st, pp, s.pDetour, s.attach);
    GrantedSlot(a, st);
    OrderlyHook(s, st.pointers.Keys, busy, detours);
    DoneInOrder(c, st, a, pp, busy, functions, detours);
    InnerKept(st, a.Done(st, pp), st1, pp, p, busy);
    InOrderSteady(c, st1, busy + {pp}, functions, detours);
    SteadyResolves(c, st1.code, p, s.pDetour, functions, detours);
    CourseRuns(c, s, st, a, p, tr1, st1);
    UndoneInOrder(c, st, st1, a, pp, busy, functions, detours);
  }

  lemma KeysKept(st: Status, last: Status, busy: set<nat>)
    requires BusyKept(st, last, busy)
    ensures last.pointers.Keys == st.pointers.Keys
  {}

  lemma GrantedSlot(a: Attach, st: Status)
    requires a.Granted(st.view, st.pRegion)
    ensures a.Offer(st.view, st.pRegion).1 != 0
  {}

  lemma InOrderSteady(c: Context, st: Status, busy: set<nat>, functions: set<nat>, detours: set<nat>)
    requires InOrder(c, st, busy, functions, detours)
    ensures Steady(c, st.code.Keys, functions, detours)
  {}

  lemma IdleIsTidy(d: Detours)
    requires Idle(d)
    ensures Tidy(d.heap.view, d.code)
  {
    hide Partitioned, IsRegion, RegionOf;
    var h, v := d.heap.State(), d.heap.view;
    forall r | r in v.order
      ensures r in v.free && forall p | p in v.free[r] :: RegionOf(p) == r
    {
      RegionKnown(h, v, r);
      forall p | p in v.free[r]
        ensures RegionOf(p) == r
      {
        FreeSlot(r, v.free[r], v.live, p);
      }
    }
  }

  /** For one, a process without jumps to follow answers well, if its functions begin with twelve bytes to
    * displace and a byte behind them; regions may be refused.
    */
  lemma PlainProcess(c: Context, addresses: set<nat>, functions: set<nat>, detours: set<nat>)
    requires 0 !in functions && 0 !in detours
    requires forall code, x :: c.e.CodeFromPointer(code, x) == x && c.e.Displaces(code, x) == 12
    requires forall regions, x :: c.e.Supply(regions, x) == 0
    requires forall x | x in functions :: x / PAGE_SIZE in c.pages && forall a | x <= a <= x + 12 :: a in addresses
    ensures Steady(c, addresses, functions, detours)
  {
    forall code: map<nat, bv8> | code.Keys == addresses
      ensures SteadyOn(c, code, functions, detours)
    {
      forall x | x in functions
        ensures Displaceable(code, c.pages, x, 12)
      {
        assert forall a | x <= a <= x + 12 :: a in addresses;
      }
    }
  }

  /** In a process that answers well, an orderly script is run to its end, on the course computed
    * beforehand, and leaves all code, the set of trampolines in use and their contents as they were, with
    * every pointer leading to a function.
    */
  method PlayOrderly(d: Detours, self: nat, s: Script, e: Environment, ghost functions: set<nat>, ghost detours: set<nat>) returns (tr: Trace)
    requires Idle(d) && self != 0 && Aimed(d.pointers, {}, functions) && Orderly(s, d.pointers.Keys, {}, detours)
    requires Steady(Context(e, d.prot.Keys, d.s_fRetainRegions), d.code.Keys, functions, detours)
    modifies d, d.heap
    ensures Idle(d) && d.code == old(d.code)
    ensures CourseOf(Context(e, old(d.prot.Keys), old(d.s_fRetainRegions)), s, old(StatusOf(d))) == Completed(tr, StatusOf(d))
    ensures d.pointers == Left(tr, old(d.pointers)) && Aimed(d.pointers, {}, functions) && Explains(tr, s, e, old(d.code), old(d.pointers))
    ensures d.heap.view.live == old(d.heap.view.live) && LiveKept(old(d.heap.State()), old(d.heap.view), d.heap.State())
  {
    hide Idle, LiveKept, CourseOf, Steady, Orderly, Tidy, Explains;
    ghost var c, st := Context(e, d.prot.Keys, d.s_fRetainRegions), StatusOf(d);
    IdleIsTidy(d);
    OrderlyCompletes(c, s, st, {}, functions, detours);
    var ok;
    ok, tr := Play(d, self, s, e);
  }
}
