/** Pending operations of a transaction and what committing or dropping them does to code, user
  * pointers, page protections and trampolines (detours/src/detours.cpp:1530-1538, 1586-1903).
  */
module DetourOperations {
  import opened TrampolineHeap
  import opened TrampolineRegions
  import opened TrampolineAllocator
  import Arm64Patch
  import opened Arm64Address

  const PAGE_SIZE := 0x1000
  const PAGE_EXECUTE_READWRITE := 0x40
  const SIZE_OF_JMP := 12
  const SIZEOF_RBCODE := 128

  /** Offset of `pbDetour` in a trampoline. */
  const OB_DETOUR := 176

  datatype DetourOperation = DetourOperation(fIsRemove: bool, ppbPointer: nat, pbTarget: nat, pTrampoline: nat, dwPerm: nat)

  /** An operation with the trampoline it points to. */
  datatype Entry = Entry(o: DetourOperation, t: Trampoline)

  /** The operations from the head of the list on, with their trampolines. */
  function Entries(ops: seq<DetourOperation>, ts: map<nat, Trampoline>): (es: seq<Entry>)
    requires forall o | o in ops :: o.pTrampoline in ts
    ensures |es| == |ops| && forall k | 0 <= k < |ops| :: es[k] == Entry(ops[k], ts[ops[k].pTrampoline])
  {
    if ops == [] then [] else [Entry(ops[0], ts[ops[0].pTrampoline])] + Entries(ops[1..], ts)
  }

  // ------------------------------------------------------------------------ Code

  /** CopyMemory to `at`. */
  function Write(code: map<nat, bv8>, at: nat, bytes: seq<bv8>): (r: map<nat, bv8>)
    ensures r.Keys == code.Keys
  {
    map a | a in code :: if at <= a < at + |bytes| then bytes[a - at] else code[a]
  }

  function Read(code: map<nat, bv8>, at: nat, cb: nat): (bytes: seq<bv8>)
    requires forall a | at <= a < at + cb :: a in code
    ensures |bytes| == cb && forall k | 0 <= k < cb :: bytes[k] == code[at + k]
    decreases cb
  {
    if cb == 0 then [] else Read(code, at, cb - 1) + [code[at + cb - 1]]
  }

  function WordBytes(w: bv32): (s: seq<bv8>)
    ensures |s| == 4
  {
    [(w & 0xff) as bv8, ((w >> 8) & 0xff) as bv8, ((w >> 16) & 0xff) as bv8, ((w >> 24) & 0xff) as bv8]
  }

  /** detour_gen_brk. */
  function BreakBytes(cb: nat): (s: seq<bv8>)
    ensures |s| == cb - cb % 4
  {
    if cb < 4 then [] else WordBytes(0xd41e_0000) + BreakBytes(cb - 4)
  }

  /** What committing an attach writes over the target: a jump through the trampoline's `pbDetour`
    * and breakpoints up to `pbRemain`.
    */
  function Patch(pbTarget: nat, pTrampoline: nat, cb: nat): (s: seq<bv8>)
    requires SIZE_OF_JMP <= cb && cb % 4 == 0
    ensures |s| == cb
  {
    var ws := Arm64Patch.JmpIndirect(AsAddress(pbTarget), AsAddress(pTrampoline + OB_DETOUR));
    WordBytes(ws[0]) + WordBytes(ws[1]) + WordBytes(ws[2]) + BreakBytes(cb - SIZE_OF_JMP)
  }

  /** Writing back what was read undoes a write of the same length. */
  lemma WriteBack(code: map<nat, bv8>, at: nat, bytes: seq<bv8>)
    requires forall a | at <= a < at + |bytes| :: a in code
    ensures Write(Write(code, at, bytes), at, Read(code, at, |bytes|)) == code
  {}

  /** A pending operation that a commit can carry out. */
  predicate Sound(e: Entry) {
    && e.t.cbRestore > 0 && |e.t.rbRestore| == e.t.cbRestore && e.o.pbTarget + e.t.cbRestore == e.t.pbRemain
    && (!e.o.fIsRemove ==> SIZE_OF_JMP <= e.t.cbRestore && e.t.cbRestore % 4 == 0)
  }

  /** What the first loop of a commit does with one operation. */
  function CommitCode1(code: map<nat, bv8>, e: Entry): map<nat, bv8>
    requires Sound(e)
  {
    Write(code, e.o.pbTarget, if e.o.fIsRemove then e.t.rbRestore else Patch(e.o.pbTarget, e.o.pTrampoline, e.t.cbRestore))
  }

  function CommitPointers1(pointers: map<nat, nat>, e: Entry): map<nat, nat> {
    pointers[e.o.ppbPointer := if e.o.fIsRemove then e.o.pbTarget else e.o.pTrampoline]
  }

  function CommitCode(code: map<nat, bv8>, es: seq<Entry>): map<nat, bv8>
    requires forall e | e in es :: Sound(e)
    decreases |es|
  {
    if es == [] then code else CommitCode(CommitCode1(code, es[0]), es[1..])
  }

  function CommitPointers(pointers: map<nat, nat>, es: seq<Entry>): map<nat, nat>
    decreases |es|
  {
    if es == [] then pointers else CommitPointers(CommitPointers1(pointers, es[0]), es[1..])
  }

  // ----------------------------------------------------------------- Protections

  predicate Covers(at: nat, cb: nat, page: nat) { cb > 0 && at / PAGE_SIZE <= page <= (at + cb - 1) / PAGE_SIZE }

  /** A page is covered if a byte of the range lies in it. */
  lemma CoversAre(at: nat, cb: nat, page: nat)
    ensures Covers(at, cb, page) <==> exists a: nat | at <= a < at + cb :: InPage(a, page)
  {
    if Covers(at, cb, page) {
      var a := if at < page * 0x1000 then page * 0x1000 else at;
      assert InPage(a, page);
    }
  }

  predicate InPage(a: nat, page: nat) { page * 0x1000 <= a < (page + 1) * 0x1000 }

  /** VirtualProtect: every page of the range gets the new protection. */
  function Protect(prot: map<nat, nat>, at: nat, cb: nat, perm: nat): (r: map<nat, nat>)
    ensures r.Keys == prot.Keys
  {
    map q | q in prot :: if Covers(at, cb, q) then perm else prot[q]
  }

  predicate Touches(e: Entry, page: nat) { Covers(e.o.pbTarget, e.t.cbRestore, page) }

  /** The protections while the operations are pending, from those before the oldest. */
  function PendingProt(before: map<nat, nat>, es: seq<Entry>): (prot: map<nat, nat>)
    ensures prot.Keys == before.Keys
  {
    if es == [] then before
    else Protect(PendingProt(before, es[1..]), es[0].o.pbTarget, es[0].t.cbRestore, PAGE_EXECUTE_READWRITE)
  }

  /** Restoring walks the list from its head, so the oldest operation comes last. */
  function RestoreProt(prot: map<nat, nat>, es: seq<Entry>): (r: map<nat, nat>)
    ensures r.Keys == prot.Keys
    decreases |es|
  {
    if es == [] then prot
    else RestoreProt(Protect(prot, es[0].o.pbTarget, es[0].t.cbRestore, es[0].o.dwPerm), es[1..])
  }

  /** `dwPerm` of each operation is what VirtualProtect reported when it was added: the protection
    * of the first page of its range.
    */
  predicate Recorded(before: map<nat, nat>, es: seq<Entry>) {
    es != [] ==>
      && Recorded(before, es[1..])
      && es[0].o.pbTarget / PAGE_SIZE in before
      && es[0].t.cbRestore > 0
      && es[0].o.dwPerm == PendingProt(before, es[1..])[es[0].o.pbTarget / PAGE_SIZE]
  }

  /** The oldest operation that touches a page, or -1; operations are numbered from the head. */
  function Oldest(es: seq<Entry>, page: nat): (k: int)
    ensures -1 <= k < |es|
    ensures k >= 0 ==> Touches(es[k], page)
    ensures forall j | k < j < |es| :: !Touches(es[j], page)
  {
    if es == [] then -1
    else if Oldest(es[1..], page) >= 0 then Oldest(es[1..], page) + 1
    else if Touches(es[0], page) then 0
    else -1
  }

  lemma {:induction false} OldestIsLast(es: seq<Entry>, page: nat)
    ensures Oldest(es, page) >= 0 ==> Oldest(es[Oldest(es, page) + 1..], page) == -1
  {
    if es != [] {
      OldestIsLast(es[1..], page);
      if Oldest(es[1..], page) >= 0 {
        assert es[1..][Oldest(es[1..], page) + 1..] == es[Oldest(es, page) + 1..];
      }
    }
  }

  lemma {:induction false} PendingIs(before: map<nat, nat>, es: seq<Entry>, page: nat)
    requires page in before
    ensures page in PendingProt(before, es)
    ensures PendingProt(before, es)[page] == if Oldest(es, page) >= 0 then PAGE_EXECUTE_READWRITE else before[page]
  {
    if es != [] {
      PendingIs(before, es[1..], page);
    }
  }

  lemma {:induction false} RestoredIs(prot: map<nat, nat>, es: seq<Entry>, page: nat)
    requires page in prot
    ensures page in RestoreProt(prot, es)
    ensures RestoreProt(prot, es)[page] == if Oldest(es, page) >= 0 then es[Oldest(es, page)].o.dwPerm else prot[page]
  {
    if es != [] {
      RestoredIs(Protect(prot, es[0].o.pbTarget, es[0].t.cbRestore, es[0].o.dwPerm), es[1..], page);
    }
  }

  lemma {:induction false} RecordedIs(before: map<nat, nat>, es: seq<Entry>, k: nat)
    requires Recorded(before, es) && k < |es|
    ensures es[k].t.cbRestore > 0
    ensures es[k].o.pbTarget / PAGE_SIZE in before && es[k].o.pbTarget / PAGE_SIZE in PendingProt(before, es[k + 1..])
    ensures es[k].o.dwPerm == PendingProt(before, es[k + 1..])[es[k].o.pbTarget / PAGE_SIZE]
    decreases k
  {
    if k > 0 {
      RecordedIs(before, es[1..], k - 1);
      assert es[1..][k..] == es[k + 1..];
    }
  }

  /** The protection a page ends up with, in terms of those before the transaction: a page that no
    * operation touches keeps its own; another gets the protection of the first page of the oldest
    * operation that touches it, or PAGE_EXECUTE_READWRITE if an older one had touched that page.
    */
  function FinalProt(before: map<nat, nat>, es: seq<Entry>, page: nat): nat
    requires page in before && forall e | e in es :: e.o.pbTarget / PAGE_SIZE in before
  {
    var k := Oldest(es, page);
    if k < 0 then before[page]
    else
      var first := es[k].o.pbTarget / PAGE_SIZE;
      if Oldest(es[k + 1..], first) >= 0 then PAGE_EXECUTE_READWRITE else before[first]
  }

  /** Ending a transaction gives exactly these protections. */
  lemma ProtectionsRestored(before: map<nat, nat>, es: seq<Entry>, page: nat)
    requires Recorded(before, es) && page in before
    ensures forall e | e in es :: e.o.pbTarget / PAGE_SIZE in before
    ensures page in RestoreProt(PendingProt(before, es), es)
    ensures RestoreProt(PendingProt(before, es), es)[page] == FinalProt(before, es, page)
  {
    forall k | 0 <= k < |es|
      ensures es[k].o.pbTarget / PAGE_SIZE in before
    {
      RecordedIs(before, es, k);
    }
    PendingIs(before, es, page);
    RestoredIs(PendingProt(before, es), es, page);
    var k := Oldest(es, page);
    if k >= 0 {
      RecordedIs(before, es, k);
      PendingIs(before, es[k + 1..], es[k].o.pbTarget / PAGE_SIZE);
    }
  }

  /** A page where every operation that touches it begins has its protection back, however many
    * operations share it.
    */
  lemma SharedPageRestored(before: map<nat, nat>, es: seq<Entry>, page: nat)
    requires Recorded(before, es) && page in before
    requires forall e | e in es && Touches(e, page) :: e.o.pbTarget / PAGE_SIZE == page
    ensures page in RestoreProt(PendingProt(before, es), es)
    ensures RestoreProt(PendingProt(before, es), es)[page] == before[page]
  {
    ProtectionsRestored(before, es, page);
    OldestIsLast(es, page);
  }

  /** Operation `k` was the first in time to touch the page. */
  predicate FirstTouch(es: seq<Entry>, k: nat, page: nat) {
    k < |es| && Touches(es[k], page) && forall j | k < j < |es| :: !Touches(es[j], page)
  }

  predicate TouchedBefore(es: seq<Entry>, k: nat, page: nat) { exists j | k < j < |es| :: Touches(es[j], page) }

  /** What a page needs to get its protection back: the first target to touch it begins there; or it
    * begins in a page that still had the same protection, or that was already writable when this page
    * always is.
    */
  ghost predicate GetsBack(before: map<nat, nat>, es: seq<Entry>, page: nat)
    requires page in before && forall e | e in es :: e.o.pbTarget / PAGE_SIZE in before
  {
    forall k: nat | FirstTouch(es, k, page) ::
      var first := es[k].o.pbTarget / PAGE_SIZE;
      first == page || before[page] == if TouchedBefore(es, k, first) then PAGE_EXECUTE_READWRITE else before[first]
  }

  lemma TouchedIsOldest(es: seq<Entry>, k: nat, page: nat)
    requires k < |es|
    ensures TouchedBefore(es, k, page) <==> Oldest(es[k + 1..], page) >= 0
  {
    forall j | k < j < |es| && Touches(es[j], page)
      ensures Oldest(es[k + 1..], page) >= 0
    {
      assert es[k + 1..][j - k - 1] == es[j];
    }
  }

  /** A page has its protection back exactly under that condition. */
  lemma PageRestoredExactly(before: map<nat, nat>, es: seq<Entry>, page: nat)
    requires Recorded(before, es) && page in before
    ensures forall e | e in es :: e.o.pbTarget / PAGE_SIZE in before
    ensures page in RestoreProt(PendingProt(before, es), es)
    ensures RestoreProt(PendingProt(before, es), es)[page] == before[page] <==> GetsBack(before, es, page)
  {
    ProtectionsRestored(before, es, page);
    OldestIsLast(es, page);
    var k := Oldest(es, page);
    forall j: nat
      ensures FirstTouch(es, j, page) <==> k == j
    {}
    if k >= 0 {
      TouchedIsOldest(es, k, es[k].o.pbTarget / PAGE_SIZE);
      assert FirstTouch(es, k, page);
    }
  }

  /** A target that straddles two pages leaves the second with the protection of the first. */
  lemma StraddlingPageIsNot(before: map<nat, nat>, e: Entry, page: nat)
    requires page in before && page + 1 in before && Recorded(before, [e])
    requires e.o.pbTarget / PAGE_SIZE == page && Touches(e, page + 1)
    ensures page + 1 in RestoreProt(PendingProt(before, [e]), [e])
    ensures RestoreProt(PendingProt(before, [e]), [e])[page + 1] == before[page]
  {
    ProtectionsRestored(before, [e], page + 1);
    assert Oldest([e], page + 1) == 0;
  }

  // ------------------------------------------------------------------ Trampolines

  /** Giving back the slot of one pending attach; a removal keeps its slot until the commit. */
  function Undo1(v: View, o: DetourOperation): View {
    if !o.fIsRemove && RegionOf(o.pTrampoline) in v.free then ViewFree(v, o.pTrampoline) else v
  }

  function Undo(v: View, ops: seq<DetourOperation>): View
    decreases |ops|
  {
    if ops == [] then v else Undo(Undo1(v, ops[0]), ops[1..])
  }

  function Redo1(v: View, o: DetourOperation): View {
    if o.fIsRemove && RegionOf(o.pTrampoline) in v.free then ViewFree(v, o.pTrampoline) else v
  }

  /** Giving back the slots of the removals, as a commit does. */
  function Removed(v: View, ops: seq<DetourOperation>): View
    decreases |ops|
  {
    if ops == [] then v else Removed(Redo1(v, ops[0]), ops[1..])
  }

  /** Regions put in front of the list one after the other, the last of `added` first. */
  function GrowAll(v: View, added: seq<nat>): View {
    if added == [] then v else ViewGrow(GrowAll(v, added[1..]), added[0])
  }

  lemma TakeThenFree(v: View, r: nat)
    requires r in v.free && v.free[r] != [] && RegionOf(v.free[r][0]) == r && v.free[r][0] !in v.live
    ensures ViewFree(ViewTake(v, r), v.free[r][0]) == v
  {
    assert [v.free[r][0]] + v.free[r][1..] == v.free[r];
    assert ViewFree(ViewTake(v, r), v.free[r][0]).free == v.free;
  }

  /** A new region does not disturb what undoing the pending operations does. */
  lemma {:induction false} UndoAfterGrow(v: View, r: nat, ops: seq<DetourOperation>)
    requires forall o | o in ops :: RegionOf(o.pTrampoline) != r && RegionOf(o.pTrampoline) in v.free
    ensures Undo(ViewGrow(v, r), ops) == ViewGrow(Undo(v, ops), r)
    decreases |ops|
  {
    if ops != [] {
      assert Undo1(ViewGrow(v, r), ops[0]).free == ViewGrow(Undo1(v, ops[0]), r).free;
      assert Undo1(ViewGrow(v, r), ops[0]) == ViewGrow(Undo1(v, ops[0]), r);
      UndoAfterGrow(Undo1(v, ops[0]), r, ops[1..]);
    }
  }
}
