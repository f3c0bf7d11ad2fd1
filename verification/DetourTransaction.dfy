/** Transactions: DetourTransactionBegin, Abort and CommitEx, DetourAttachEx and DetourDetach of the
  * ARM64 build (detours/src/detours.cpp:1586-1903, 1950-2491).
  */
module DetourTransaction {
  import opened TrampolineHeap
  import opened TrampolineRegions
  import opened TrampolineAllocator
  import opened TrampolineReach
  import opened DetourOperations
  import opened DetourPending
  import opened DetourJump

  const NO_ERROR := 0
  const ERROR_INVALID_HANDLE := 6
  const ERROR_NOT_ENOUGH_MEMORY := 8
  const ERROR_INVALID_BLOCK := 9
  const ERROR_INVALID_PARAMETER := 87
  const ERROR_INVALID_OPERATION := 4317

  /** The library's variables and the parts of the process they act on. */
  class Detours {
    const heap: Regions
    var code: map<nat, bv8>
    var pointers: map<nat, nat>
    var prot: map<nat, nat>
    var s_fIgnoreTooSmall: bool
    var s_fRetainRegions: bool
    var s_nPendingThreadId: nat
    var s_nPendingError: nat
    var s_ppPendingError: nat
    var s_pPendingOperations: seq<DetourOperation>

    /** The world and the allocator when the transaction began, and the regions obtained since. */
    ghost var world0: World
    ghost var view0: View
    ghost var added: seq<nat>

    function Now(): World reads this { World(code, pointers, prot) }

    ghost predicate Valid()
      reads this, heap
    {
      Consistent() && AllFilled(heap.State(), heap.view)
    }

    ghost predicate Consistent()
      reads this, heap
    {
      && heap.Valid()
      && (if s_nPendingThreadId == 0 then s_pPendingOperations == []
          else InTransaction(heap.view, heap.trampolines, Now(), s_pPendingOperations, world0, view0, added))
    }

    constructor (w: World)
      ensures Valid() && fresh(heap) && Now() == w && heap.view == View([], map[], {}) && s_nPendingThreadId == 0
      ensures !s_fIgnoreTooSmall && !s_fRetainRegions
    {
      heap := new Regions();
      code, pointers, prot := w.code, w.pointers, w.prot;
      s_fIgnoreTooSmall, s_fRetainRegions := false, false;
      s_nPendingThreadId, s_nPendingError, s_ppPendingError, s_pPendingOperations := 0, NO_ERROR, 0, [];
      world0, view0, added := w, View([], map[], {}), [];
    }

    /** DetourTransactionBegin; `nWritable` is what making the trampoline regions writable returns. */
    method TransactionBegin(self: nat, nWritable: nat) returns (error: nat)
      requires Valid() && self != 0
      modifies this
      ensures Valid() && heap.view == old(heap.view) && s_fRetainRegions == old(s_fRetainRegions)
      ensures old(s_nPendingThreadId) != 0 ==> error == ERROR_INVALID_OPERATION && unchanged(this)
      ensures old(s_nPendingThreadId) == 0 ==>
        && error == nWritable == s_nPendingError && s_nPendingThreadId == self && s_ppPendingError == 0
        && s_pPendingOperations == [] && Now() == old(Now()) == world0 && view0 == heap.view && added == []
    {
      hide Represents, AllFilled;
      if s_nPendingThreadId != 0 {
        return ERROR_INVALID_OPERATION;
      }
      s_nPendingThreadId := self;
      s_pPendingOperations := [];
      s_ppPendingError := 0;
      s_nPendingError := nWritable;
      world0, view0, added := Now(), heap.view, [];
      ShapeKnown(heap.State(), heap.view);
      Begins(heap.view, heap.trampolines, Now());
      return s_nPendingError;
    }

    /** The loop of an abort: every protection is put back and every attach's trampoline freed. */
    method DropOperations()
      requires heap.Valid() && AllLive(heap.view, heap.trampolines, s_pPendingOperations) && Distinct(s_pPendingOperations)
      modifies this`prot, heap
      ensures heap.Valid() && heap.view == old(Undo(heap.view, s_pPendingOperations)) && heap.s_pRegion == old(heap.s_pRegion)
      ensures prot == old(RestoreProt(prot, Entries(s_pPendingOperations, heap.trampolines)))
      ensures LiveKept(old(heap.State()), heap.view, heap.State()) && heap.view.live <= old(heap.view.live)
    {
      hide Represents, Walking, Undo, RestoreProt, Distinct, RegionOf, Protect, LiveKept;
      ghost var h := heap.State();
      ShapeKnown(h, heap.view);
      ghost var es := Entries(s_pPendingOperations, heap.trampolines);
      ghost var last, undone := RestoreProt(prot, es), Undo(heap.view, s_pPendingOperations);
      WalkStarts(heap.view, heap.trampolines, prot, s_pPendingOperations);
      var o := s_pPendingOperations;
      while o != []
        invariant heap.Valid() && Walking(heap.view, heap.trampolines, prot, o, es, last)
        invariant Undo(heap.view, o) == undone && heap.s_pRegion == h.pRegion
        invariant LiveKept(h, heap.view, heap.State()) && heap.view.live <= old(heap.view.live)
        decreases |o|
      {
        ghost var v, ts, prot', h' := heap.view, heap.trampolines, prot, heap.State();
        WalkKnown(v, ts, prot, o, es, last);
        prot := Protect(prot, o[0].pbTarget, heap.trampolines[o[0].pTrampoline].cbRestore, o[0].dwPerm);
        if !o[0].fIsRemove {
          heap.FreeTrampoline(o[0].pTrampoline);
          FreeKeepsOthers(h, h', v, heap.State(), heap.view, o[0].pTrampoline);
        }
        UndoStep(v, heap.view, o);
        WalkOn(v, heap.view, ts, heap.trampolines, prot', o, es, last);
        es := es[1..];
        o := o[1..];
      }
      WalkEnds(heap.view, heap.trampolines, prot, es, last);
      UndoNothing(heap.view);
    }

    /** DetourTransactionAbort: code, pointers and free lists are those of the beginning, and the
      * protections those the recorded ones restore.
      */
    method TransactionAbort(self: nat) returns (error: nat)
      requires Valid() && self != 0
      modifies this, heap
      ensures Valid()
      ensures old(s_nPendingThreadId) != self ==> error == ERROR_INVALID_OPERATION && unchanged(this) && unchanged(heap)
      ensures old(s_nPendingThreadId) == self ==> Aborted(old(heap.trampolines), old(s_pPendingOperations), old(world0), old(view0), old(added))
      ensures old(s_nPendingThreadId) == self ==> error == NO_ERROR && s_nPendingError == old(s_nPendingError) && s_ppPendingError == old(s_ppPendingError)
      ensures heap.s_pRegion == old(heap.s_pRegion) && s_fRetainRegions == old(s_fRetainRegions)
      ensures LiveKept(old(heap.State()), heap.view, heap.State()) && heap.view.live <= old(heap.view.live)
    {
      hide Represents, Undo, RestoreProt, PendingProt, Recorded, Ready, GrowAll, Distinct, Settled, LiveKept, Entries, AllFilled;
      ShapeKnown(heap.State(), heap.view);
      if s_nPendingThreadId != self {
        return ERROR_INVALID_OPERATION;
      }
      DropOperations();
      StaysFilled(old(heap.State()), old(heap.view), heap.State(), heap.view);
      s_pPendingOperations := [];
      s_nPendingThreadId := 0;
      return NO_ERROR;
    }

    /** The loop of a commit that writes targets and pointers. */
    method WriteOperations()
      requires AllLive(heap.view, heap.trampolines, s_pPendingOperations)
      requires Ready(Now(), Entries(s_pPendingOperations, heap.trampolines))
      modifies this`code, this`pointers
      ensures code == old(CommitCode(code, Entries(s_pPendingOperations, heap.trampolines)))
      ensures pointers == old(CommitPointers(pointers, Entries(s_pPendingOperations, heap.trampolines)))
      ensures LastingDetoured(old(code), code, old(Entries(s_pPendingOperations, heap.trampolines)))
    {
      hide Patch, Write, LastingDetoured;
      var o := s_pPendingOperations;
      ghost var es := Entries(o, heap.trampolines);
      CommitDetoursAll(code, es);
      ghost var lastCode, lastPointers := CommitCode(code, es), CommitPointers(pointers, es);
      while o != []
        invariant AllLive(heap.view, heap.trampolines, o)
        invariant es == Entries(o, heap.trampolines) && forall e | e in es :: Sound(e)
        invariant CommitCode(code, es) == lastCode && CommitPointers(pointers, es) == lastPointers
        decreases |o|
      {
        var t := heap.trampolines[o[0].pTrampoline];
        assert es[0] == Entry(o[0], t) && Sound(es[0]);
        if o[0].fIsRemove {
          code := Write(code, o[0].pbTarget, t.rbRestore);
          pointers := pointers[o[0].ppbPointer := o[0].pbTarget];
        } else {
          code := Write(code, o[0].pbTarget, Patch(o[0].pbTarget, o[0].pTrampoline, t.cbRestore));
          pointers := pointers[o[0].ppbPointer := o[0].pTrampoline];
        }
        o := o[1..];
        es := es[1..];
      }
    }

    /** The loop of a commit that puts back the protections and frees the trampolines of removals. */
    method FinishOperations() returns (freed: bool)
      requires heap.Valid() && AllLive(heap.view, heap.trampolines, s_pPendingOperations) && Distinct(s_pPendingOperations)
      requires Settled(heap.State(), heap.view)
      modifies this`prot, heap
      ensures heap.Valid() && heap.view == old(Removed(heap.view, s_pPendingOperations)) && Settled(heap.State(), heap.view)
      ensures heap.s_pRegion == old(heap.s_pRegion)
      ensures prot == old(RestoreProt(prot, Entries(s_pPendingOperations, heap.trampolines)))
      ensures freed <==> exists o | o in s_pPendingOperations :: o.fIsRemove
      ensures LiveKept(old(heap.State()), heap.view, heap.State()) && heap.view.live <= old(heap.view.live)
    {
      hide Represents, Walking, Removed, RestoreProt, Distinct, RegionOf, Protect, Settled, LiveKept;
      ghost var es := Entries(s_pPendingOperations, heap.trampolines);
      ghost var last, removed := RestoreProt(prot, es), Removed(heap.view, s_pPendingOperations);
      ghost var h := heap.State();
      WalkStarts(heap.view, heap.trampolines, prot, s_pPendingOperations);
      ShapeKnown(heap.State(), heap.view);
      var o := s_pPendingOperations;
      freed := false;
      while o != []
        invariant heap.Valid() && Walking(heap.view, heap.trampolines, prot, o, es, last)
        invariant Removed(heap.view, o) == removed && heap.s_pRegion == h.pRegion
        invariant LiveKept(h, heap.view, heap.State()) && heap.view.live <= old(heap.view.live)
        invariant (exists q | q in s_pPendingOperations :: q.fIsRemove) <==> freed || exists q | q in o :: q.fIsRemove
        decreases |o|
      {
        ghost var v, h', prot' := heap.view, heap.State(), prot;
        WalkKnown(v, h'.trampolines, prot, o, es, last);
        prot := Protect(prot, o[0].pbTarget, heap.trampolines[o[0].pTrampoline].cbRestore, o[0].dwPerm);
        if o[0].fIsRemove {
          heap.FreeTrampoline(o[0].pTrampoline);
          FreeKeepsOthers(h, h', v, heap.State(), heap.view, o[0].pTrampoline);
          freed := true;
        }
        RemovedStep(v, heap.view, o);
        WalkOn(v, heap.view, h'.trampolines, heap.trampolines, prot', o, es, last);
        es := es[1..];
        o := o[1..];
      }
      WalkEnds(heap.view, heap.trampolines, prot, es, last);
      RemovedNothing(heap.view);
      StaysSettled(h, old(heap.view), heap.State(), heap.view);
    }

    /** DetourTransactionCommitEx. The hypothesis on live trampolines is what releasing idle regions
      * relies on; every trampoline filled for a function outside its own region meets it.
      */
    method TransactionCommitEx(self: nat) returns (error: nat, pFailedPointer: nat)
      requires Valid() && self != 0 && Settled(heap.State(), heap.view)
      modifies this, heap
      ensures Valid()
      ensures pFailedPointer == old(s_ppPendingError) == s_ppPendingError
      ensures old(s_nPendingThreadId) != self ==> error == ERROR_INVALID_OPERATION && unchanged(this) && unchanged(heap)
      ensures old(s_nPendingThreadId) == self && old(s_nPendingError) != NO_ERROR ==>
        error == old(s_nPendingError) && Aborted(old(heap.trampolines), old(s_pPendingOperations), old(world0), old(view0), old(added))
        && heap.s_pRegion == old(heap.s_pRegion)
      ensures s_fRetainRegions == old(s_fRetainRegions)
      ensures old(s_nPendingThreadId) == self && old(s_nPendingError) == NO_ERROR ==>
        error == NO_ERROR && Committed(old(heap.State()), old(heap.view), old(s_pPendingOperations), old(world0))
        && EveryDetoured(old(heap.State()), old(s_pPendingOperations), old(world0))
      ensures Settled(heap.State(), heap.view) && LiveKept(old(heap.State()), heap.view, heap.State())
    {
      hide Represents, Undo, RestoreProt, PendingProt, Recorded, GrowAll, Settled, LiveKept, Committed, AllFilled, InTransaction, EveryDetoured;
      ShapeKnown(heap.State(), heap.view);
      pFailedPointer := s_ppPendingError;
      if s_nPendingThreadId != self {
        return ERROR_INVALID_OPERATION, pFailedPointer;
      }
      if s_nPendingError != NO_ERROR {
        var aborted := TransactionAbort(self);
        StaysSettled(old(heap.State()), old(heap.view), heap.State(), heap.view);
        return s_nPendingError, pFailedPointer;
      }
      CommitOperations();
      CommittedKeeps(this, old(heap.State()), old(heap.view), old(s_pPendingOperations), world0);
      CommittedDetours(this, old(heap.State()), old(heap.view), old(s_pPendingOperations), world0);
      pFailedPointer := s_ppPendingError;
      return s_nPendingError, pFailedPointer;
    }

    /** The part of a commit for a transaction without a pending error. */
    method CommitOperations()
      requires Valid() && s_nPendingThreadId != 0 && Settled(heap.State(), heap.view)
      modifies this`code, this`pointers, this`prot, this`s_pPendingOperations, this`s_nPendingThreadId, heap
      ensures Committed(old(heap.State()), old(heap.view), old(s_pPendingOperations), world0)
      ensures Settled(heap.State(), heap.view) && Valid()
    {
      hide Represents, Undo, RestoreProt, PendingProt, Recorded, GrowAll, Settled, LiveKept, CommitCode, CommitPointers, Removed, Pruned, Distinct, Entries, Sound, AllFilled, LastingDetoured, EveryDetoured;
      WriteOperations();
      var freed := FinishOperations();
      s_pPendingOperations := [];
      ghost var h, v := heap.State(), heap.view;
      ReleaseIdle(freed);
      ReleasedKeeps(old(heap.State()), v, h, heap.view, heap.State());
      StaysFilled(old(heap.State()), old(heap.view), heap.State(), heap.view);
      s_nPendingThreadId := 0;
    }

    /** The regions left without trampolines are released, unless they are to be retained. */
    method ReleaseIdle(freed: bool)
      requires heap.Valid() && Settled(heap.State(), heap.view)
      modifies heap
      ensures heap.Valid() && Settled(heap.State(), heap.view)
      ensures heap.view == old(if freed && !s_fRetainRegions then Pruned(heap.view) else heap.view) && heap.view.live == old(heap.view.live)
      ensures heap.s_pRegion == old(if |heap.view.order| == |Pruned(heap.view).order| || !freed || s_fRetainRegions then heap.s_pRegion else 0)
      ensures LiveKept(old(heap.State()), old(heap.view), heap.State())
    {
      hide Represents, Settled, LiveKept, Pruned;
      PrunedLive(heap.view);
      ShapeKnown(heap.State(), heap.view);
      if freed && !s_fRetainRegions { heap.FreeUnusedRegions(); } else { KeptAsIs(heap.State(), heap.view); }
    }

    /** The labels `fail` and `stop` of an attach: the trampoline is given back. */
    method Stop(pTrampoline: nat, ppPointer: nat)
      requires heap.Valid() && (pTrampoline != 0 ==> pTrampoline in heap.view.live)
      modifies this`s_ppPendingError, heap
      ensures heap.Valid() && s_ppPendingError == ppPointer && heap.s_pRegion == old(heap.s_pRegion)
      ensures pTrampoline == 0 ==> unchanged(heap)
      ensures old(pTrampoline != 0 ==> RegionOf(pTrampoline) in heap.view.free)
      ensures heap.view == old(if pTrampoline != 0 then ViewFree(heap.view, pTrampoline) else heap.view)
      ensures forall p | p in old(heap.trampolines) && p != pTrampoline :: p in heap.trampolines && heap.trampolines[p] == old(heap.trampolines[p])
    {
      hide Represents, RegionOf;
      if pTrampoline != 0 {
        heap.FreeTrampoline(pTrampoline);
      }
      s_ppPendingError := ppPointer;
    }

    /** The outcome of looking for a trampoline for `pbTarget`. */
    ghost function Offered(pbTarget: nat, pNew: nat): (View, nat)
      reads this, heap
      requires heap.Valid() && (pNew != 0 ==> IsRegion(pNew) && pNew !in heap.view.order)
    {
      Allocated(heap.view, heap.s_pRegion, detour_2gb_below(pbTarget), detour_2gb_above(pbTarget), pNew)
    }

    /** What is left of the allocator when the trampoline for `pbTarget` has been given back. */
    ghost function Refused(pbTarget: nat, pNew: nat): View
      reads this, heap
      requires heap.Valid()
    {
      Regrown(heap.view, heap.s_pRegion, detour_2gb_below(pbTarget), detour_2gb_above(pbTarget), pNew)
    }

    /** The default region after looking for a trampoline for `pbTarget`. */
    ghost function DefaultAfter(pbTarget: nat, pNew: nat): nat
      reads this, heap
      requires heap.Valid()
    {
      NextDefault(heap.view, heap.s_pRegion, detour_2gb_below(pbTarget), detour_2gb_above(pbTarget), pNew)
    }

    /** Too few bytes could be displaced: the error that DetourSetIgnoreTooSmall concerns. */
    ghost predicate TooSmall(pbTarget: nat, pDetour: nat, noMemory: bool, pNew: nat, cbTarget: nat)
      reads this, heap
      requires heap.Valid() && (pNew != 0 ==> IsRegion(pNew) && pNew !in heap.view.order)
    {
      pDetour != pbTarget && !noMemory && Offered(pbTarget, pNew).1 != 0 && cbTarget < SIZE_OF_JMP
    }

    /** What an attach returns once the pointer and both addresses are known. */
    ghost function AttachError(pbTarget: nat, pDetour: nat, noMemory: bool, pNew: nat, cbTarget: nat, nProtect: nat): nat
      reads this, heap
      requires heap.Valid() && (pNew != 0 ==> IsRegion(pNew) && pNew !in heap.view.order)
    {
      if pDetour == pbTarget then NO_ERROR
      else if noMemory || Offered(pbTarget, pNew).1 == 0 then ERROR_NOT_ENOUGH_MEMORY
      else if cbTarget < SIZE_OF_JMP then ERROR_INVALID_BLOCK
      else if cbTarget > SIZEOF_RBCODE - SIZE_OF_JMP then ERROR_INVALID_HANDLE
      else nProtect
    }

    /** DetourAttachEx from the resolved addresses on. `noMemory` is whether the operation cannot be
      * allocated, `pNew` the region the system can supply, `cbTarget` the size of the instructions
      * that were copied with the padding after them, `nProtect` the error of VirtualProtect.
      */
    method AttachTo(ppPointer: nat, pbTarget: nat, pDetour: nat, noMemory: bool, pNew: nat, cbTarget: nat, nProtect: nat)
      returns (error: nat, pRealTrampoline: nat, pRealTarget: nat, pRealDetour: nat)
      requires Valid() && s_nPendingThreadId != 0 && s_nPendingError == NO_ERROR && ppPointer in pointers
      requires pNew != 0 ==> IsRegion(pNew) && pNew !in heap.view.order
      requires cbTarget % 4 == 0 && Mapped(Now(), pbTarget, cbTarget)
      modifies this`prot, this`s_nPendingError, this`s_ppPendingError, this`s_pPendingOperations, this`added, heap
      ensures Valid()
      ensures error == old(AttachError(pbTarget, pDetour, noMemory, pNew, cbTarget, nProtect))
      ensures s_nPendingError == if s_fIgnoreTooSmall && old(TooSmall(pbTarget, pDetour, noMemory, pNew, cbTarget)) then NO_ERROR else error
      ensures LiveKept(old(heap.State()), old(heap.view), heap.State())
      ensures pDetour != pbTarget && error == NO_ERROR ==>
        && pRealTrampoline != 0 && (heap.view, pRealTrampoline) == old(Offered(pbTarget, pNew)) && pRealTarget == pbTarget && pRealDetour == pDetour
        && pRealTrampoline in heap.trampolines
        && heap.trampolines[pRealTrampoline] == Trampoline(pbTarget + cbTarget, pDetour, cbTarget, old(Read(code, pbTarget, cbTarget)))
        && s_pPendingOperations == [DetourOperation(false, ppPointer, pbTarget, pRealTrampoline, old(prot[pbTarget / PAGE_SIZE]))] + old(s_pPendingOperations)
        && prot == Protect(old(prot), pbTarget, cbTarget, PAGE_EXECUTE_READWRITE) && s_ppPendingError == old(s_ppPendingError)
      ensures !(pDetour != pbTarget && error == NO_ERROR) ==>
        && pRealTrampoline == pRealTarget == pRealDetour == 0 && s_ppPendingError == ppPointer
        && s_pPendingOperations == old(s_pPendingOperations) && prot == old(prot)
        && heap.view == old(if pDetour == pbTarget || noMemory then heap.view else Refused(pbTarget, pNew))
      ensures heap.s_pRegion == old(if pDetour == pbTarget || noMemory then heap.s_pRegion else DefaultAfter(pbTarget, pNew))
    {
      hide Represents, InTransaction, Allocated, ViewGrow, ViewFree, IsRegion, Protect, RegionOf, LiveKept, Taken, AllFilled, Regrown, NextDefault;
      pRealTrampoline, pRealTarget, pRealDetour := 0, 0, 0;
      error := NO_ERROR;
      ShapeKnown(heap.State(), heap.view);
      if pDetour == pbTarget {
        s_nPendingError := error;
        Stop(0, ppPointer);
        return;
      }
      if noMemory {
        error := ERROR_NOT_ENOUGH_MEMORY;
        s_nPendingError := error;
        Stop(0, ppPointer);
        return;
      }
      ghost var u;
      var pTrampoline;
      pTrampoline, u := AllocateFor(pbTarget, pNew);
      ghost var v' := heap.view;
      if pTrampoline == 0 {
        error := ERROR_NOT_ENOUGH_MEMORY;
        s_nPendingError := error;
        Stop(0, ppPointer);
        StaysFilledSame(old(heap.State()), old(heap.view), heap.State(), heap.view);
        return;
      }
      if cbTarget < SIZE_OF_JMP {
        error := ERROR_INVALID_BLOCK;
        if !s_fIgnoreTooSmall {
          s_nPendingError := error;
        }
        Abandon(pTrampoline, ppPointer, u, old(heap.State()), old(heap.view));
        StaysFilledSame(old(heap.State()), old(heap.view), heap.State(), heap.view);
        return;
      }
      if cbTarget > SIZEOF_RBCODE - SIZE_OF_JMP {
        error := ERROR_INVALID_HANDLE;
        s_nPendingError := error;
        Abandon(pTrampoline, ppPointer, u, old(heap.State()), old(heap.view));
        StaysFilledSame(old(heap.State()), old(heap.view), heap.State(), heap.view);
        return;
      }
      var t := Trampoline(pbTarget + cbTarget, pDetour, cbTarget, Read(code, pbTarget, cbTarget));
      error := Enlist(ppPointer, pbTarget, t, nProtect, pTrampoline, u, old(heap.State()), old(heap.view));
      if error != NO_ERROR {
        StaysFilledSame(old(heap.State()), old(heap.view), heap.State(), heap.view);
      } else {
        TakenLive(old(heap.view), u, v', pTrampoline, old(s_pPendingOperations));
        OneMoreFilled(old(heap.State()), old(heap.view), heap.State(), heap.view, pTrampoline);
        pRealTrampoline, pRealTarget, pRealDetour := pTrampoline, pbTarget, pDetour;
      }
    }

    /** The last part of an attach: the trampoline is filled in and the operation put at the head. */
    method Enlist(ppPointer: nat, pbTarget: nat, t: Trampoline, nProtect: nat, pTrampoline: nat,
                  ghost u: View, ghost h0: Heap, ghost v0: View)
      returns (error: nat)
      requires pbTarget / PAGE_SIZE in prot && ppPointer in pointers
      requires forall dwPerm :: Sound(Entry(DetourOperation(false, ppPointer, pbTarget, pTrampoline, dwPerm), t))
      requires heap.Valid() && s_nPendingThreadId != 0 && s_nPendingError == NO_ERROR && pTrampoline != 0 && LiveKept(h0, v0, heap.State())
      requires Mapped(Now(), pbTarget, t.cbRestore)
      requires InTransaction(u, heap.trampolines, Now(), s_pPendingOperations, world0, view0, added)
      requires Taken(v0, u, heap.view, pTrampoline, s_pPendingOperations)
      modifies this`prot, this`s_nPendingError, this`s_ppPendingError, this`s_pPendingOperations, heap
      ensures error == nProtect == s_nPendingError
      ensures error != NO_ERROR ==> heap.view == u && s_ppPendingError == ppPointer && prot == old(prot) && s_pPendingOperations == old(s_pPendingOperations)
      ensures error == NO_ERROR ==>
        && heap.view == old(heap.view) && s_ppPendingError == old(s_ppPendingError)
        && pTrampoline in heap.trampolines && heap.trampolines[pTrampoline] == t
        && s_pPendingOperations == [DetourOperation(false, ppPointer, pbTarget, pTrampoline, old(prot[pbTarget / PAGE_SIZE]))] + old(s_pPendingOperations)
        && prot == Protect(old(prot), pbTarget, t.cbRestore, PAGE_EXECUTE_READWRITE)
      ensures Consistent() && LiveKept(h0, v0, heap.State()) && heap.s_pRegion == old(heap.s_pRegion)
    {
      hide Represents, InTransaction, ViewFree, Protect, RegionOf, LiveKept;
      ghost var h := heap.State();
      heap.FillTrampoline(pTrampoline, t);
      TakenApart(v0, u, heap.view, h.trampolines, s_pPendingOperations, pTrampoline, Now(), world0, view0, added);
      ContentsFrame(u, h.trampolines, heap.trampolines, Now(), s_pPendingOperations, world0, view0, added);
      LiveKeptElsewhere(h0, v0, h, heap.State(), pTrampoline);
      if nProtect != NO_ERROR {
        s_nPendingError := nProtect;
        Abandon(pTrampoline, ppPointer, u, h0, v0);
        return nProtect;
      }
      ghost var w, ops := Now(), s_pPendingOperations;
      var dwOld := prot[pbTarget / PAGE_SIZE];
      prot := Protect(prot, pbTarget, t.cbRestore, PAGE_EXECUTE_READWRITE);
      var o := DetourOperation(false, ppPointer, pbTarget, pTrampoline, dwOld);
      s_pPendingOperations := [o] + s_pPendingOperations;
      PushKeeps(u, heap.view, heap.trampolines, heap.trampolines, w, Now(), o, ops, world0, view0, added);
      return NO_ERROR;
    }

    /** Taking a trampoline for a target; `u` is the view if it is given back. */
    method AllocateFor(pbTarget: nat, pNew: nat) returns (pTrampoline: nat, ghost u: View)
      requires Consistent() && s_nPendingThreadId != 0
      requires pNew != 0 ==> IsRegion(pNew) && pNew !in heap.view.order
      modifies this`added, heap
      ensures heap.Valid() && (heap.view, pTrampoline) == old(Offered(pbTarget, pNew))
      ensures u == old(Refused(pbTarget, pNew)) && heap.s_pRegion == old(DefaultAfter(pbTarget, pNew))
      ensures InTransaction(u, heap.trampolines, Now(), s_pPendingOperations, world0, view0, added)
      ensures LiveKept(old(heap.State()), old(heap.view), heap.State())
      ensures u.live == old(heap.view.live)
      ensures pTrampoline == 0 ==> heap.view == u
      ensures pTrampoline != 0 ==> Taken(old(heap.view), u, heap.view, pTrampoline, s_pPendingOperations)
    {
      hide Represents, InTransaction, Allocated, ViewGrow, ViewFree, IsRegion, RegionOf, Regrown, FirstFit, Serves;
      ghost var h, v := heap.State(), heap.view;
      ShapeKnown(h, v);
      AllocationUndone(h, v, detour_2gb_below(pbTarget), detour_2gb_above(pbTarget), pNew);
      u := Regrown(v, h.pRegion, detour_2gb_below(pbTarget), detour_2gb_above(pbTarget), pNew);
      RegrownIs(v, h.pRegion, detour_2gb_below(pbTarget), detour_2gb_above(pbTarget), pNew);
      pTrampoline := heap.AllocTrampoline(detour_2gb_below(pbTarget), detour_2gb_above(pbTarget), pNew);
      AllocationKeeps(h, v, u, h.trampolines, heap.trampolines, pNew, Now(), s_pPendingOperations, world0, view0, added);
      if pTrampoline != 0 {
        NotPending(v, h.trampolines, Now(), s_pPendingOperations, world0, view0, added, pTrampoline);
      }
      added := if u == v then added else [pNew] + added;
    }

    /** An attach fails after its trampoline was taken. */
    method Abandon(pTrampoline: nat, ppPointer: nat, ghost u: View, ghost h0: Heap, ghost v0: View)
      requires heap.Valid() && s_nPendingThreadId != 0 && pTrampoline != 0 && LiveKept(h0, v0, heap.State())
      requires InTransaction(u, heap.trampolines, Now(), s_pPendingOperations, world0, view0, added)
      requires Taken(v0, u, heap.view, pTrampoline, s_pPendingOperations)
      modifies this`s_ppPendingError, heap
      ensures Consistent() && heap.view == u && s_ppPendingError == ppPointer && LiveKept(h0, v0, heap.State())
      ensures heap.s_pRegion == old(heap.s_pRegion)
    {
      hide Represents, InTransaction, ViewFree, RegionOf, LiveKept;
      ghost var h := heap.State();
      Stop(pTrampoline, ppPointer);
      TakenApart(v0, u, old(heap.view), h.trampolines, s_pPendingOperations, pTrampoline, Now(), world0, view0, added);
      ContentsFrame(u, h.trampolines, heap.trampolines, Now(), s_pPendingOperations, world0, view0, added);
      LiveKeptElsewhere(h0, v0, h, heap.State(), pTrampoline);
    }

    /** DetourAttachEx. `CodeFromPointer` skips the jumps that lead from a pointer to code. */
    method AttachEx(self: nat, ppPointer: nat, pDetour: nat, CodeFromPointer: nat -> nat, noMemory: bool, pNew: nat, cbTarget: nat, nProtect: nat)
      returns (error: nat, pRealTrampoline: nat, pRealTarget: nat, pRealDetour: nat)
      requires Valid() && self != 0 && (ppPointer != 0 ==> ppPointer in pointers)
      requires pNew != 0 ==> IsRegion(pNew) && pNew !in heap.view.order
      requires cbTarget % 4 == 0 && (ppPointer != 0 ==> Mapped(Now(), CodeFromPointer(pointers[ppPointer]), cbTarget))
      modifies this`prot, this`s_nPendingError, this`s_ppPendingError, this`s_pPendingOperations, this`added, heap
      ensures Valid() && LiveKept(old(heap.State()), old(heap.view), heap.State())
      ensures pDetour == 0 ==> error == ERROR_INVALID_PARAMETER && unchanged(this) && unchanged(heap)
      ensures pDetour != 0 && old(s_nPendingThreadId) != self ==> error == ERROR_INVALID_OPERATION && unchanged(this) && unchanged(heap)
      ensures pDetour != 0 && old(Owned(self)) && old(s_nPendingError) != NO_ERROR ==>
        error == old(s_nPendingError) && unchanged(this) && unchanged(heap)
      ensures pDetour != 0 && old(Open(self)) && ppPointer == 0 ==> error == ERROR_INVALID_HANDLE && unchanged(this) && unchanged(heap)
      ensures pDetour != 0 && old(Open(self)) && ppPointer != 0 && old(pointers[ppPointer]) == 0 ==>
        error == ERROR_INVALID_HANDLE == s_nPendingError && s_ppPendingError == ppPointer
        && prot == old(prot) && s_pPendingOperations == old(s_pPendingOperations) && added == old(added) && unchanged(heap)
      ensures pDetour != 0 && old(Open(self)) && ppPointer != 0 && old(pointers[ppPointer]) != 0 ==>
        var pbTarget, pbDetour := CodeFromPointer(old(pointers[ppPointer])), CodeFromPointer(pDetour);
        && error == old(AttachError(pbTarget, pbDetour, noMemory, pNew, cbTarget, nProtect))
        && s_nPendingError == (if s_fIgnoreTooSmall && old(TooSmall(pbTarget, pbDetour, noMemory, pNew, cbTarget)) then NO_ERROR else error)
        && (pbDetour != pbTarget && error == NO_ERROR ==>
            && pRealTrampoline != 0 && (heap.view, pRealTrampoline) == old(Offered(pbTarget, pNew)) && pRealTarget == pbTarget && pRealDetour == pbDetour
            && pRealTrampoline in heap.trampolines
            && heap.trampolines[pRealTrampoline] == Trampoline(pbTarget + cbTarget, pbDetour, cbTarget, old(Read(code, pbTarget, cbTarget)))
            && s_pPendingOperations == [DetourOperation(false, ppPointer, pbTarget, pRealTrampoline, old(prot[pbTarget / PAGE_SIZE]))] + old(s_pPendingOperations)
            && prot == Protect(old(prot), pbTarget, cbTarget, PAGE_EXECUTE_READWRITE) && s_ppPendingError == old(s_ppPendingError))
        && (!(pbDetour != pbTarget && error == NO_ERROR) ==>
            && pRealTrampoline == pRealTarget == pRealDetour == 0 && s_ppPendingError == ppPointer
            && s_pPendingOperations == old(s_pPendingOperations) && prot == old(prot)
            && heap.view == old(if pbDetour == pbTarget || noMemory then heap.view else Refused(pbTarget, pNew)))
        && heap.s_pRegion == old(if pbDetour == pbTarget || noMemory then heap.s_pRegion else DefaultAfter(pbTarget, pNew))
    {
      hide Represents, InTransaction, Allocated, ViewGrow, IsRegion, Protect, AllFilled, Regrown, NextDefault;
      ShapeKnown(heap.State(), heap.view);
      error, pRealTrampoline, pRealTarget, pRealDetour := NO_ERROR, 0, 0, 0;
      if pDetour == 0 {
        error := ERROR_INVALID_PARAMETER;
        return;
      }
      if s_nPendingThreadId != self {
        error := ERROR_INVALID_OPERATION;
        return;
      }
      if s_nPendingError != NO_ERROR {
        error := s_nPendingError;
        return;
      }
      if ppPointer == 0 {
        error := ERROR_INVALID_HANDLE;
        return;
      }
      if pointers[ppPointer] == 0 {
        error := ERROR_INVALID_HANDLE;
        s_nPendingError := error;
        s_ppPendingError := ppPointer;
        return;
      }
      error, pRealTrampoline, pRealTarget, pRealDetour :=
        AttachTo(ppPointer, CodeFromPointer(pointers[ppPointer]), CodeFromPointer(pDetour), noMemory, pNew, cbTarget, nProtect);
    }

    predicate Owned(self: nat) reads this { s_nPendingThreadId == self }

    /** The thread's transaction accepts operations. */
    predicate Open(self: nat) reads this { s_nPendingThreadId == self && s_nPendingError == NO_ERROR }

    /** The checks by which a detach recognizes the trampoline of a detour. */
    static predicate Recognized(t: Trampoline, pDetour: nat) { 0 < t.cbRestore <= SIZEOF_RBCODE && t.pbDetour == pDetour }

    /** Where the bytes a trampoline displaced came from. */
    static function TargetOf(t: Trampoline): nat { if t.cbRestore <= t.pbRemain then t.pbRemain - t.cbRestore else 0 }

    /** The protection VirtualProtect reports for a range that begins in a page of `w`. */
    static function PermAt(w: map<nat, nat>, at: nat): nat { if at / PAGE_SIZE in w then w[at / PAGE_SIZE] else 0 }

    /** DetourDetach. `found` is what the memory the pointer leads to holds when read as a trampoline;
      * a trampoline is in use and not yet the subject of a pending operation, and other memory does
      * not pass the checks.
      */
    method Detach(self: nat, ppPointer: nat, pDetour: nat, CodeFromPointer: nat -> nat, noMemory: bool, found: Trampoline, nProtect: nat)
      returns (error: nat)
      requires Valid() && self != 0 && (ppPointer != 0 ==> ppPointer in pointers)
      requires ppPointer != 0 ==>
        var p := CodeFromPointer(pointers[ppPointer]);
        if p in heap.trampolines then
          && found == heap.trampolines[p] && (forall o | o in s_pPendingOperations :: o.pTrampoline != p)
          && (nProtect == NO_ERROR ==> Mapped(Now(), TargetOf(found), found.cbRestore))
        else !Recognized(found, CodeFromPointer(pDetour))
      modifies this`prot, this`s_nPendingError, this`s_ppPendingError, this`s_pPendingOperations
      ensures Valid()
      ensures old(s_nPendingThreadId) != self ==> error == ERROR_INVALID_OPERATION && unchanged(this)
      ensures old(Owned(self)) && old(s_nPendingError) != NO_ERROR ==> error == old(s_nPendingError) && unchanged(this)
      ensures old(Open(self)) && pDetour == 0 ==> error == ERROR_INVALID_PARAMETER && unchanged(this)
      ensures old(Open(self)) && pDetour != 0 && ppPointer == 0 ==> error == ERROR_INVALID_HANDLE && unchanged(this)
      ensures old(Open(self)) && pDetour != 0 && ppPointer != 0 && old(pointers[ppPointer]) == 0 ==>
        error == ERROR_INVALID_HANDLE == s_nPendingError && s_ppPendingError == ppPointer
        && prot == old(prot) && s_pPendingOperations == old(s_pPendingOperations)
      ensures old(Open(self)) && pDetour != 0 && ppPointer != 0 && old(pointers[ppPointer]) != 0 ==>
        var p, known := CodeFromPointer(old(pointers[ppPointer])), 0 < found.cbRestore <= 128 && found.pbDetour == CodeFromPointer(pDetour);
        && error == (if noMemory then ERROR_NOT_ENOUGH_MEMORY else if !known then ERROR_INVALID_BLOCK else nProtect)
        && s_nPendingError == (if s_fIgnoreTooSmall && !noMemory && !known then NO_ERROR else error)
        && (error == NO_ERROR ==>
            && p in heap.view.live && TargetOf(found) + found.cbRestore == found.pbRemain
            && s_pPendingOperations == [DetourOperation(true, ppPointer, TargetOf(found), p, PermAt(old(prot), TargetOf(found)))] + old(s_pPendingOperations)
            && prot == Protect(old(prot), TargetOf(found), found.cbRestore, PAGE_EXECUTE_READWRITE)
            && s_ppPendingError == old(s_ppPendingError))
        && (error != NO_ERROR ==> s_ppPendingError == ppPointer && prot == old(prot) && s_pPendingOperations == old(s_pPendingOperations))
    {
      hide Represents, InTransaction, Protect;
      error := NO_ERROR;
      if s_nPendingThreadId != self {
        return ERROR_INVALID_OPERATION;
      }
      if s_nPendingError != NO_ERROR {
        return s_nPendingError;
      }
      if pDetour == 0 {
        return ERROR_INVALID_PARAMETER;
      }
      if ppPointer == 0 {
        return ERROR_INVALID_HANDLE;
      }
      if pointers[ppPointer] == 0 {
        error := ERROR_INVALID_HANDLE;
        s_nPendingError := error;
        s_ppPendingError := ppPointer;
        return;
      }
      if noMemory {
        error := ERROR_NOT_ENOUGH_MEMORY;
        s_nPendingError := error;
        s_ppPendingError := ppPointer;
        return;
      }
      var pTrampoline, pbDetour := CodeFromPointer(pointers[ppPointer]), CodeFromPointer(pDetour);
      var cbTarget := found.cbRestore;
      if cbTarget == 0 || cbTarget > SIZEOF_RBCODE || found.pbDetour != pbDetour {
        error := ERROR_INVALID_BLOCK;
        if !s_fIgnoreTooSmall {
          s_nPendingError := error;
        }
        s_ppPendingError := ppPointer;
        return;
      }
      HoldsBytesOnlyIfLive(heap.State(), heap.view, pTrampoline);
      if nProtect != NO_ERROR {
        error := nProtect;
        s_nPendingError := error;
        s_ppPendingError := ppPointer;
        return;
      }
      ghost var w, ops := Now(), s_pPendingOperations;
      var pbTarget: nat := found.pbRemain - cbTarget;
      var dwOld := prot[pbTarget / PAGE_SIZE];
      prot := Protect(prot, pbTarget, cbTarget, PAGE_EXECUTE_READWRITE);
      var o := DetourOperation(true, ppPointer, pbTarget, pTrampoline, dwOld);
      s_pPendingOperations := [o] + s_pPendingOperations;
      PendingKnown(heap.view, heap.trampolines, w, ops, world0, view0, added);
      PushKeeps(heap.view, heap.view, heap.trampolines, heap.trampolines, w, Now(), o, ops, world0, view0, added);
    }

    /** Targets and pointers are written in list order, the protections put back, the trampolines of
      * removals freed and, unless regions are retained, the regions left without trampolines released.
      */
    ghost predicate Committed(h: Heap, v: View, ops: seq<DetourOperation>, w0: World)
      reads this, heap
    {
      && s_nPendingThreadId == 0 && s_pPendingOperations == []
      && (forall o | o in ops :: o.pTrampoline in h.trampolines) && (forall e | e in Entries(ops, h.trampolines) :: Sound(e))
      && code == CommitCode(w0.code, Entries(ops, h.trampolines))
      && pointers == CommitPointers(w0.pointers, Entries(ops, h.trampolines))
      && heap.view == (if (exists o | o in ops :: o.fIsRemove) && !s_fRetainRegions then Pruned(Removed(v, ops)) else Removed(v, ops))
      && heap.s_pRegion == (if |heap.view.order| == |Removed(v, ops).order| then h.pRegion else 0)
      && LiveKept(h, heap.view, heap.State())
      && prot == RestoreProt(PendingProt(w0.prot, Entries(ops, h.trampolines)), Entries(ops, h.trampolines))
      && Recorded(w0.prot, Entries(ops, h.trampolines))
    }

    /** Entering a function that was attached last at its place leads to its detour. */
    ghost predicate EveryDetoured(h: Heap, ops: seq<DetourOperation>, w0: World)
      reads this
    {
      (forall o | o in ops :: o.pTrampoline in h.trampolines) && LastingDetoured(w0.code, code, Entries(ops, h.trampolines))
    }

    /** Everything is as at the beginning of the transaction, but for the regions obtained since and
      * pages whose protection the recorded ones do not restore.
      */
    ghost predicate Aborted(ts: map<nat, Trampoline>, ops: seq<DetourOperation>, w0: World, v0: View, obtained: seq<nat>)
      reads this, heap
    {
      && s_nPendingThreadId == 0 && s_pPendingOperations == []
      && code == w0.code && pointers == w0.pointers
      && heap.view == GrowAll(v0, obtained)
      && (forall o | o in ops :: o.pTrampoline in ts)
      && prot == RestoreProt(PendingProt(w0.prot, Entries(ops, ts)), Entries(ops, ts))
      && Recorded(w0.prot, Entries(ops, ts))
      && (forall r :: r in v0.free <==> r in v0.order)
    }
  }

  lemma WalkStarts(v: View, ts: map<nat, Trampoline>, prot: map<nat, nat>, ops: seq<DetourOperation>)
    requires AllLive(v, ts, ops) && Distinct(ops)
    ensures Walking(v, ts, prot, ops, Entries(ops, ts), RestoreProt(prot, Entries(ops, ts)))
  {}

  lemma WalkKnown(v: View, ts: map<nat, Trampoline>, prot: map<nat, nat>, ops: seq<DetourOperation>, es: seq<Entry>, last: map<nat, nat>)
    requires Walking(v, ts, prot, ops, es, last) && ops != []
    ensures es != [] && ops[0].pTrampoline in v.live && ops[0].pTrampoline in ts && es[0] == Entry(ops[0], ts[ops[0].pTrampoline])
  {}

  lemma WalkEnds(v: View, ts: map<nat, Trampoline>, prot: map<nat, nat>, es: seq<Entry>, last: map<nat, nat>)
    requires Walking(v, ts, prot, [], es, last)
    ensures prot == last
  {}

  lemma UndoStep(v: View, v': View, ops: seq<DetourOperation>)
    requires ops != [] && v' == Undo1(v, ops[0])
    ensures Undo(v', ops[1..]) == Undo(v, ops)
  {}

  lemma UndoNothing(v: View)
    ensures Undo(v, []) == v
  {}

  lemma RemovedStep(v: View, v': View, ops: seq<DetourOperation>)
    requires ops != [] && v' == Redo1(v, ops[0])
    ensures Removed(v', ops[1..]) == Removed(v, ops)
  {}

  lemma RemovedNothing(v: View)
    ensures Removed(v, []) == v
  {}

  lemma FreeKeepsOthers(h0: Heap, h: Heap, v: View, h': Heap, v': View, p: nat)
    requires LiveKept(h0, v, h) && v'.live == v.live - {p}
    requires forall q | q in h.trampolines && q != p :: q in h'.trampolines && h'.trampolines[q] == h.trampolines[q]
    ensures LiveKept(h0, v', h')
  {}

  /** Trampolines in use stay settled while they keep their contents. */
  lemma StaysSettled(h: Heap, v: View, h': Heap, v': View)
    requires Settled(h, v) && LiveKept(h, v', h') && v'.live <= v.live
    ensures Settled(h', v')
  {}

  lemma PrunedLive(v: View)
    ensures Pruned(v).live == v.live
  {}

  lemma ReleasedKeeps(h0: Heap, v: View, h: Heap, v': View, h': Heap)
    requires LiveKept(h0, v, h) && LiveKept(h, v, h') && v'.live == v.live
    ensures LiveKept(h0, v', h')
  {}

  lemma KeptAsIs(h: Heap, v: View)
    requires forall p | p in v.live :: p in h.trampolines
    ensures LiveKept(h, v, h)
  {}

  lemma RegrownIs(v: View, pRegion: nat, pLo: nat, pHi: nat, pNew: nat)
    requires Known(v, pRegion)
    ensures Regrown(v, pRegion, pLo, pHi, pNew) == v || (pNew != 0 && Regrown(v, pRegion, pLo, pHi, pNew) == ViewGrow(v, pNew))
  {}

  /** `v` is `u` with the slot `p` taken, which was in use neither in `v0` nor by an operation. */
  ghost predicate Taken(v0: View, u: View, v: View, p: nat, ops: seq<DetourOperation>) {
    && p !in v0.live && v.live == v0.live + {p} && u.live == v0.live && RegionOf(p) in v.free && ViewFree(v, p) == u
    && forall o | o in ops :: o.pTrampoline != p
  }

  lemma NotPending(v: View, ts: map<nat, Trampoline>, w: World, ops: seq<DetourOperation>, w0: World, v0: View, added: seq<nat>, p: nat)
    requires InTransaction(v, ts, w, ops, w0, v0, added) && p !in v.live
    ensures forall o | o in ops :: o.pTrampoline != p
  {}

  lemma PendingKnown(v: View, ts: map<nat, Trampoline>, w: World, ops: seq<DetourOperation>, w0: World, v0: View, added: seq<nat>)
    requires InTransaction(v, ts, w, ops, w0, v0, added)
    ensures forall o | o in ops :: o.pTrampoline in v.live && o.pTrampoline in ts
  {}

  lemma TakenApart(v0: View, u: View, v: View, ts: map<nat, Trampoline>, ops: seq<DetourOperation>, p: nat, w: World, w0: World, b: View, added: seq<nat>)
    requires Taken(v0, u, v, p, ops) && InTransaction(u, ts, w, ops, w0, b, added)
    ensures p !in v0.live && forall o | o in ops :: o.pTrampoline != p && o.pTrampoline in ts
  {}

  lemma LiveKeptElsewhere(h0: Heap, v0: View, h: Heap, h': Heap, p: nat)
    requires LiveKept(h0, v0, h) && p !in v0.live
    requires forall q | q in h.trampolines && q != p :: q in h'.trampolines && h'.trampolines[q] == h.trampolines[q]
    ensures LiveKept(h0, v0, h')
  {}

  lemma StaysFilledSame(h: Heap, v: View, h': Heap, v': View)
    requires AllFilled(h, v) && LiveKept(h, v, h') && v'.live == v.live
    ensures AllFilled(h', v')
  {}

  lemma TakenLive(v0: View, u: View, v: View, p: nat, ops: seq<DetourOperation>)
    requires Taken(v0, u, v, p, ops)
    ensures v.live == v0.live + {p}
  {}

  lemma CommittedDetours(d: Detours, h: Heap, v: View, ops: seq<DetourOperation>, w0: World)
    requires d.Committed(h, v, ops, w0)
    ensures d.EveryDetoured(h, ops, w0)
  {
    hide LastingDetoured, Sound, CommitCode, CommitPointers, Pruned, Removed, RestoreProt, PendingProt, Recorded;
    CommitDetoursAll(w0.code, Entries(ops, h.trampolines));
  }

  lemma CommittedKeeps(d: Detours, h: Heap, v: View, ops: seq<DetourOperation>, w0: World)
    requires d.Committed(h, v, ops, w0)
    ensures LiveKept(h, d.heap.view, d.heap.State())
  {}
}
