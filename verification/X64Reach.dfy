/** Where the trampoline of an x64 function may lie (detours/src/detours.cpp:323-360, 416-452): near the
  * function and near what a jump at its start names, so that every 32-bit offset of a hook fits.
  */
module X64Reach {
  import opened PayloadLayout
  import opened X64Copy
  import opened X64Simulation
  import opened X64Moved
  import opened X64Trampoline
  import opened TrampolineHeap
  import opened TrampolineAllocator
  import opened TrampolineConservation
  import opened TrampolineReach

  // -------------------------------------------------------------------- The bounds

  predicate IsVectorJump(code: seq<byte>) { |code| >= 6 && code[0] == 0xff && code[1] == 0x25 }

  predicate IsNearJump(code: seq<byte>) { |code| >= 5 && code[0] == 0xe9 }

  /** The address that a jump at `at` reads its target from. */
  function VectorAt(code: seq<byte>, at: int): Option<int> {
    if IsVectorJump(code) then Some(at + 6 + Signed(code[2..6])) else None
  }

  /** The vector or the target of a jump at the start of a function. */
  function LeadingJump(code: seq<byte>, pbCode: int): Option<int> {
    if IsVectorJump(code) then VectorAt(code, pbCode)
    else if IsNearJump(code) then Some(pbCode + 5 + Signed(code[1..5]))
    else None
  }

  function detour_find_jmp_bounds(code: seq<byte>, pbCode: nat): (r: (nat, nat)) {
    match LeadingJump(code, pbCode)
    case None => (detour_2gb_below(pbCode), detour_2gb_above(pbCode))
    case Some(n) =>
      var pbNew := Wrap(n);
      if pbNew < pbCode then (detour_2gb_below(pbCode), detour_2gb_above(pbNew))
      else (detour_2gb_below(pbNew), detour_2gb_above(pbCode))
  }

  predicate InBounds(b: (nat, nat), p: nat) { b.0 <= p <= b.1 }

  lemma JumpSpan(code: seq<byte>, pbCode: int)
    ensures LeadingJump(code, pbCode).Some? ==> pbCode - 0x8000_0000 <= LeadingJump(code, pbCode).value < pbCode + 0x8000_0006
  {
    if IsVectorJump(code) {
      FieldSpan(code[2..6]);
    } else if IsNearJump(code) {
      FieldSpan(code[1..5]);
    }
  }

  lemma FieldSpan(s: seq<byte>)
    requires |s| == 4
    ensures -0x8000_0000 <= Signed(s) < 0x8000_0000
  {
    UnsignedBound(s);
    FourBytes();
  }

  lemma FourBytes()
    ensures Power(4) == 0x1_0000_0000
  {
    assert Power(1) == 0x100 && Power(2) == 0x1_0000 && Power(3) == 0x100_0000;
  }

  /** A trampoline within the bounds is near the function and near what its leading jump names; a jump
    * that would wrap around the address space leaves no address within the bounds.
    */
  lemma JmpBoundsReach(code: seq<byte>, pbCode: nat, p: nat)
    requires pbCode < ADDRESS_SPACE && InBounds(detour_find_jmp_bounds(code, pbCode), p)
    ensures -0x7ff8_0000 <= p - pbCode <= 0x7ff8_0000
    ensures LeadingJump(code, pbCode).Some? ==>
      var n := LeadingJump(code, pbCode).value; 0 <= n < ADDRESS_SPACE && -0x7ff8_0000 <= p - n <= 0x7ff8_0000
    ensures p + 96 <= ADDRESS_SPACE
  {
    hide LeadingJump;
    JumpSpan(code, pbCode);
  }

  /** The bounds leave out no more than they must: above the lowest 2 GB they are exactly what is near
    * both the function and what its leading jump names.
    */
  lemma JmpBoundsAreBoth(code: seq<byte>, pbCode: nat, p: nat)
    requires 0x8000_0000 <= pbCode < ADDRESS_SPACE
    requires LeadingJump(code, pbCode).Some? && 0x8000_0000 <= LeadingJump(code, pbCode).value < ADDRESS_SPACE
    ensures InBounds(detour_find_jmp_bounds(code, pbCode), p) <==>
      && InBounds((detour_2gb_below(pbCode), detour_2gb_above(pbCode)), p)
      && var n := LeadingJump(code, pbCode).value; InBounds((detour_2gb_below(n), detour_2gb_above(n)), p)
  {
    hide LeadingJump;
  }

  // ------------------------------------------------------------------- What is emitted

  function detour_gen_jmp_immediate(pbCode: int, pbJmpVal: int): seq<byte> { [0xe9] + LittleEndian(4, pbJmpVal - (pbCode + 5)) }

  function detour_gen_jmp_indirect(pbCode: int, ppbJmpVal: int): seq<byte> { [0xff, 0x25] + LittleEndian(4, ppbJmpVal - (pbCode + 6)) }

  predicate Near32(d: int) { -0x8000_0000 <= d < 0x8000_0000 }

  lemma FitsNear(d: int)
    ensures Fits(4, d) <==> Near32(d)
  {
    FourBytes();
  }

  lemma ImmediateReaches(pbCode: int, pbJmpVal: int)
    ensures BranchAt(detour_gen_jmp_immediate(pbCode, pbJmpVal), pbCode) == Some(Branch(Jmp, pbJmpVal, 5)) <==> Near32(pbJmpVal - (pbCode + 5))
  {
    var d := pbJmpVal - (pbCode + 5);
    var s := detour_gen_jmp_immediate(pbCode, pbJmpVal);
    assert s[1..5] == LittleEndian(4, d);
    SignedRoundTrip(4, d);
    FitsNear(d);
    hide Signed, LittleEndian, Fits, Near32;
    assert BranchAt(s, pbCode) == Some(Branch(Jmp, pbCode + 5 + Signed(s[1..5]), 5));
  }

  lemma IndirectReaches(pbCode: int, ppbJmpVal: int)
    ensures VectorAt(detour_gen_jmp_indirect(pbCode, ppbJmpVal), pbCode) == Some(ppbJmpVal) <==> Near32(ppbJmpVal - (pbCode + 6))
  {
    var d := ppbJmpVal - (pbCode + 6);
    var s := detour_gen_jmp_indirect(pbCode, ppbJmpVal);
    assert s[2..6] == LittleEndian(4, d);
    SignedRoundTrip(4, d);
    FitsNear(d);
    hide Signed, LittleEndian, Fits, Near32;
    assert s[0] == 0xff && s[1] == 0x25 && |s| == 6;
  }

  // -------------------------------------------------------------- The moved leading jump

  /** The copy names what the original names. */
  predicate SameLeadingJump(code: seq<byte>, pbCode: int, bytes: seq<byte>, p: int) {
    && LeadingJump(bytes, p) == LeadingJump(code, pbCode)
    && (IsVectorJump(code) <==> IsVectorJump(bytes)) && (IsNearJump(code) <==> IsNearJump(bytes))
  }

  lemma VectorField(code: seq<byte>, src: int, dst: int)
    requires IsVectorJump(code)
    ensures CopyInstruction(code, src, dst).Some?
    ensures var c := CopyInstruction(code, src, dst).value;
      && c.cbSrc == 6 && c.bytes == [0xff, 0x25] + LittleEndian(4, Signed(code[2..6]) - (dst - src))
      && c.extra == 0 && c.target == Through(src + 6 + Signed(code[2..6]))
  {
    hide LittleEndian, Signed, Power, Fits;
    var o := NO_OVERRIDES;
    assert CopyTable(0xff) == CopyFF;
    assert SizeOf(Bytes2Mod, o, code) == Some(6);
    assert RelField(Bytes2Mod, code, 6) == Some((2, 4));
    var bytes := code[..6];
    assert bytes[2..6] == code[2..6] && bytes[..2] == [0xff, 0x25] && bytes[6..] == [];
    assert Adjusted(bytes, (2, 4), src, dst) == [0xff, 0x25] + LittleEndian(4, Signed(code[2..6]) - (dst - src));
  }

  lemma VectorMoved(code: seq<byte>, pbCode: int, p: int)
    requires IsVectorJump(code) && Near32(LeadingJump(code, pbCode).value - (p + 6))
    ensures var c := CopyInstruction(code, pbCode, p);
      c.Some? && c.value.cbSrc == 6 && Step(c.value) == 6 && SameLeadingJump(code, pbCode, c.value.bytes, p)
      && c.value.target == Through(LeadingJump(code, pbCode).value)
  {
    VectorField(code, pbCode, p);
    var d := Signed(code[2..6]) - (p - pbCode);
    IndirectReaches(p, LeadingJump(code, pbCode).value);
    hide LittleEndian, Signed, Fits, Near32, CopyInstruction;
    assert CopyInstruction(code, pbCode, p).value.bytes == detour_gen_jmp_indirect(p, LeadingJump(code, pbCode).value);
  }

  lemma NearMoved(code: seq<byte>, pbCode: int, p: int)
    requires IsNearJump(code) && Near32(LeadingJump(code, pbCode).value - (p + 5))
    ensures var c := CopyInstruction(code, pbCode, p);
      c.Some? && c.value.cbSrc == 5 && Step(c.value) == 5 && SameLeadingJump(code, pbCode, c.value.bytes, p)
  {
    NearField(NO_OVERRIDES, code, pbCode, p);
    assert CopyTable(0xe9) == Bytes3Or5Target;
    assert CopyInstruction(code, pbCode, p) == CopyBytesOf(Bytes3Or5Target, NO_OVERRIDES, code, pbCode, p);
    var d := Signed(code[1..5]) - (p - pbCode);
    SignedRoundTrip(4, d);
    FitsNear(d);
    hide LittleEndian, Signed, Fits, Near32, CopyInstruction, CopyBytesOf;
    var bytes := [code[0]] + LittleEndian(4, d);
    assert bytes[1..5] == LittleEndian(4, d) && bytes[0] == 0xe9 && |bytes| == 5;
  }

  /** A leading jump is all the copy loop displaces: it ends the function. */
  lemma OnlyTheJump(code: seq<byte>, pbCode: int, p: int)
    requires (IsVectorJump(code) || IsNearJump(code)) && CopyInstruction(code, pbCode, p).Some?
    ensures Displaced(code, pbCode, p, 0, 0) == [CopyInstruction(code, pbCode, p).value]
  {
    hide CopyInstruction;
    assert code[0..] == code && EndsFunction(code);
    NextDisplaced(code, pbCode, p, 0, 0);
    var cs := Displaced(code, pbCode, p, 0, 0);
    assert cs == [cs[0]] + cs[1..];
  }

  // ------------------------------------------------------------------------ The hook

  /** A hook whose trampoline is anywhere within the bounds: the patch leads to `rbCodeIn`, the jump there
    * reads `pbDetour`, the jump behind the displaced code reads `pbRemain`, and a leading jump is
    * displaced alone and names at its new address what it named before. The 96 bytes of a trampoline are 30
    * of `rbCode` with two more, 30 of `rbRestore` with two more, eight of `rAlign`, the pointers `pbRemain`
    * at 72 and `pbDetour` at 80, and `rbCodeIn` at 88.
    */
  lemma HookReaches(code: seq<byte>, pbCode: nat, p: nat, cbCode: nat)
    requires pbCode < ADDRESS_SPACE && InBounds(detour_find_jmp_bounds(code, pbCode), p) && cbCode + SIZE_OF_EXIT <= RB_CODE
    ensures BranchAt(detour_gen_jmp_immediate(pbCode, p + 88), pbCode) == Some(Branch(Jmp, p + 88, 5))
    ensures VectorAt(detour_gen_jmp_indirect(p + 88, p + 80), p + 88) == Some(p + 80)
    ensures VectorAt(detour_gen_jmp_indirect(p + cbCode, p + 72), p + cbCode) == Some(p + 72)
    ensures LeadingJump(code, pbCode).Some? ==>
      && |Displaced(code, pbCode, p, 0, 0)| == 1
      && SameLeadingJump(code, pbCode, Displaced(code, pbCode, p, 0, 0)[0].bytes, p)
      && Within(Displaced(code, pbCode, p, 0, 0), 0, 24)
  {
    hide LeadingJump, detour_gen_jmp_immediate, detour_gen_jmp_indirect, Displaced, detour_find_jmp_bounds, CopyInstruction, SameLeadingJump,
      BranchAt, VectorAt, Step, GrowsWell;
    JmpBoundsReach(code, pbCode, p);
    ImmediateReaches(pbCode, p + 88);
    IndirectReaches(p + 88, p + 80);
    IndirectReaches(p + cbCode, p + 72);
    LeadingIs(code, pbCode);
    if LeadingJump(code, pbCode).Some? {
      if IsVectorJump(code) {
        VectorMoved(code, pbCode, p);
      } else {
        NearMoved(code, pbCode, p);
      }
      OnlyTheJump(code, pbCode, p);
      AloneWithin(code, pbCode, p);
    }
  }

  lemma LeadingIs(code: seq<byte>, pbCode: int)
    ensures LeadingJump(code, pbCode).Some? <==> IsVectorJump(code) || IsNearJump(code)
  {}

  lemma AloneWithin(code: seq<byte>, pbCode: int, p: int)
    requires CopyInstruction(code, pbCode, p).Some? && CopyInstruction(code, pbCode, p).value.cbSrc <= 6
    ensures Within([CopyInstruction(code, pbCode, p).value], 0, 24)
  {
    hide CopyInstruction;
    InstructionGrows(code, pbCode, p);
  }

  /** The same for the slot that an allocation with these bounds returns: it was not in use, and the hook
    * reaches from it. The slots are those of ARM64, which a trampoline does not fill.
    */
  lemma AllocatedHookReaches(h: Heap, v: View, code: seq<byte>, pbCode: nat, pNew: nat, cbCode: nat)
    requires Represents(h, v) && Known(v, h.pRegion) && (pNew != 0 ==> IsRegion(pNew) && pNew !in v.order)
    requires pbCode < ADDRESS_SPACE && cbCode + SIZE_OF_EXIT <= RB_CODE
    ensures var b := detour_find_jmp_bounds(code, pbCode); var (w, p) := Allocated(v, h.pRegion, b.0, b.1, pNew);
      p != 0 ==>
      && p !in v.live && w.live == v.live + {p} && p + 96 <= ADDRESS_SPACE
      && BranchAt(detour_gen_jmp_immediate(pbCode, p + 88), pbCode) == Some(Branch(Jmp, p + 88, 5))
      && VectorAt(detour_gen_jmp_indirect(p + 88, p + 80), p + 88) == Some(p + 80)
      && VectorAt(detour_gen_jmp_indirect(p + cbCode, p + 72), p + cbCode) == Some(p + 72)
      && (LeadingJump(code, pbCode).Some? ==>
            |Displaced(code, pbCode, p, 0, 0)| == 1 && SameLeadingJump(code, pbCode, Displaced(code, pbCode, p, 0, 0)[0].bytes, p))
  {
    hide *;
    var b := detour_find_jmp_bounds(code, pbCode);
    AllocationIsSafe(h, v, b.0, b.1, pNew);
    var (w, p) := Allocated(v, h.pRegion, b.0, b.1, pNew);
    if p != 0 {
      BoundsAre(b, p);
      JmpBoundsReach(code, pbCode, p);
      HookReaches(code, pbCode, p, cbCode);
    }
  }

  lemma BoundsAre(b: (nat, nat), p: nat)
    ensures InBounds(b, p) <==> b.0 <= p <= b.1
  {}
}
