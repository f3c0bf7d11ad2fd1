/** Every relocatable ARM64 instruction, moved, means what it meant: the remaining instruction
  * classes, and the theorem over all of them. */
module Arm64Simulation {
  import opened Arm64
  import opened Arm64Encoding
  import opened Arm64Copy
  import opened Arm64Meaning
  import opened Arm64Bits
  import opened Arm64Relocation

  // -------------------------------------------------------- ADR and ADRP

  lemma OneAdr(other: OtherSemantics, rd: Reg, dst: Addr, target: Addr, c: Core)
    requires InRange(Distance(dst, target), 0x10_0000)
    ensures ExecSeq(other, [AssembleAdr19(0, rd, Low32(Distance(dst, target)))], dst, c)
         == State(Plus(dst, 4), SetX(c, rd, target))
  {
    hide Decode, Plus, Distance, ExecSeq, InRange, Low32, AssembleAdr19, SetX;
    AdrDecodes(rd, Distance(dst, target));
    AddBack(dst, target);
    ExecSeqOne(other, AssembleAdr19(0, rd, Low32(Distance(dst, target))), dst, c);
  }

  lemma AdrpExec(other: OtherSemantics, rd: Reg, dst: Addr, target: Addr, c: Core)
    requires InRange(PageDelta(target, dst), 0x10_0000)
    ensures Exec(other, Decode(AssembleAdr19(1, rd, Low32(PageDelta(target, dst)))), dst, c)
         == Next(SetX(c, rd, PageOf(target)))
  {
    hide Decode, Plus, PageOf, PageBase, PageDelta, InRange, Low32, AssembleAdr19, SetX;
    AdrDecodes(rd, PageDelta(target, dst));
    PageDeltaShifted(dst, target);
  }

  lemma AddLowExec(other: OtherSemantics, rd: Reg, dst: Addr, target: Addr, c: Core)
    requires rd != 31 && target <= 0xffff_ffff
    ensures Exec(other, Decode(AssembleAddImm12(0, rd, rd, Low12(target), 0)), dst, SetX(c, rd, PageOf(target)))
         == Next(SetX(c, rd, target))
  {
    hide Decode, Plus, PageOf, Low12, AssembleAddImm12, SetX, Width;
    Low12Small(target);
    AddDecodes(rd, Low12(target));
    LowAdd32(target);
    SetXTwice(c, rd, PageOf(target), target);
  }

  lemma AdrpAdd(other: OtherSemantics, rd: Reg, dst: Addr, target: Addr, c: Core)
    requires InRange(PageDelta(target, dst), 0x10_0000) && rd != 31 && target <= 0xffff_ffff
    ensures var ws := [AssembleAdr19(1, rd, Low32(PageDelta(target, dst))),
                       AssembleAddImm12(0, rd, rd, Low12(target), 0)];
            ExecSeq(other, ws, dst, c) == State(End(dst, ws), SetX(c, rd, target))
  {
    hide Decode, Exec, Plus, PageOf, Low12, Low32, AssembleAddImm12, AssembleAdr19, SetX, PageDelta, ExecSeq, InRange;
    var w1 := AssembleAdr19(1, rd, Low32(PageDelta(target, dst)));
    var w2 := AssembleAddImm12(0, rd, rd, Low12(target), 0);
    AdrpExec(other, rd, dst, target, c);
    AddLowExec(other, rd, Plus(dst, 4), target, c);
    assert [w1, w2] == [w1] + [w2];
    ExecSeqStep(other, w1, [w2], dst, c);
    ExecSeqOne(other, w2, Plus(dst, 4), SetX(c, rd, PageOf(target)));
  }

  lemma JustMov(other: OtherSemantics, rd: Reg, imm: bv64, dst: Addr, c: Core)
    ensures var ws := MovImmediate(rd, imm);
            ExecSeq(other, ws, dst, c) == State(End(dst, ws), SetX(c, rd, imm))
  {
    hide MovImmediate, SetX;
    var ws := MovImmediate(rd, imm);
    assert ws + [] == ws;
    MovImmediateRuns(other, rd, imm, [], dst, c);
  }

  lemma AdrSimulates(other: OtherSemantics, src: Addr, dst: Addr, w: Word, c: Core)
    requires IsPcRelAddress(w) && w & 0x8000_0000 == 0 && Relocatable(Decode(w), src, dst)
    ensures var ws := CopyAdr(src, dst, w);
            ExecSeq(other, ws, dst, c) == Expected(other, Decode(w), src, dst, End(dst, ws), c)
  {
    hide Decode, Plus, Distance, PageDelta, ExecSeq, InRange, Low12, Low32, AssembleAddImm12, AssembleAdr19, SetX,
         MovImmediate, SignExtend32, Imm21, Adr19Imm, Rd;
    DecodeAdr(w);
    Adr19ImmAgrees(w);
    var rd, target := Rd(w), Plus(src, Imm21(w));
    if InRange(Distance(dst, target), 0x10_0000) {
      OneAdr(other, rd, dst, target, c);
    } else if InRange(PageDelta(target, dst), 0x10_0000) {
      AdrpAdd(other, rd, dst, target, c);
    } else {
      JustMov(other, rd, target, dst, c);
    }
  }

  lemma AdrpTargetIs(src: Addr, w: Word)
    ensures AdrpTarget(src, w) == Plus(PageOf(src), PageBase(Imm21(w)))
    ensures PageOf(AdrpTarget(src, w)) == AdrpTarget(src, w)
  {
    hide Plus, PageOf, PageBase, PageNumber, SignExtend32, Imm21, Adr19Imm;
    Adr19ImmAgrees(w);
    AdrpTargetAgrees(src, Imm21(w));
    PageIsPage(Plus(PageNumber(src), Imm21(w)));
  }

  lemma AdrpSimulates(other: OtherSemantics, src: Addr, dst: Addr, w: Word, c: Core)
    requires IsPcRelAddress(w) && w & 0x8000_0000 != 0
    ensures var ws := CopyAdr(src, dst, w);
            ExecSeq(other, ws, dst, c) == Expected(other, Decode(w), src, dst, End(dst, ws), c)
  {
    hide Decode, Plus, PageOf, PageBase, PageDelta, ExecSeq, InRange, Low32, AssembleAdr19, SetX, MovImmediate,
         AdrpTarget, AdrTarget, Imm21, Rd;
    DecodeAdr(w);
    AdrpTargetIs(src, w);
    var rd, target := Rd(w), AdrpTarget(src, w);
    if InRange(PageDelta(target, dst), 0x10_0000) {
      AdrpExec(other, rd, dst, target, c);
      ExecSeqOne(other, AssembleAdr19(1, rd, Low32(PageDelta(target, dst))), dst, c);
    } else {
      JustMov(other, rd, target, dst, c);
    }
  }

  // ------------------------------------------------------------- B and BL

  lemma SetXApart(c: Core, v: bv64, l: bv64)
    ensures SetX(SetX(c, X17, v), LR, l) == SetX(SetX(c, LR, l), X17, v)
  {
    assert c.x[17 := v][30 := l] == c.x[30 := l][17 := v];
  }

  lemma NearBranchRuns(other: OtherSemantics, link: bool, src: Addr, dst: Addr, target: Addr, c: Core)
    requires Aligned(target) && Aligned(dst) && InRange(Distance(dst, target), 0x800_0000)
    ensures ExecSeq(other, [AssembleBranch26(link, Low32(Distance(dst, target)))], dst, c)
         == State(target, if link then SetX(SetX(c, LR, Plus(src, 4)), LR, Plus(dst, 4)) else c)
  {
    hide Decode, Plus, Distance, ExecSeq, InRange, Low32, AssembleBranch26, SetX, Aligned;
    AlignedDelta(dst, target);
    BranchDecodes(link, Distance(dst, target));
    AddBack(dst, target);
    ExecSeqOne(other, AssembleBranch26(link, Low32(Distance(dst, target))), dst, c);
    SetXTwice(c, LR, Plus(src, 4), Plus(dst, 4));
  }

  lemma FarBranchRuns(other: OtherSemantics, link: bool, src: Addr, dst: Addr, target: Addr, c: Core)
    ensures var ws := MovImmediate(X17, target) + [AssembleBr(X17, link)];
            ExecSeq(other, ws, dst, c)
            == State(target, SetX(if link then SetX(SetX(c, LR, Plus(src, 4)), LR, End(dst, ws)) else c, X17, target))
  {
    hide Decode, Plus, ExecSeq, AssembleBr, SetX, MovImmediate;
    var mov, br := MovImmediate(X17, target), AssembleBr(X17, link);
    var a, c17 := End(dst, mov), SetX(c, X17, target);
    MovImmediateRuns(other, X17, target, [br], dst, c);
    BrDecodes(X17, link);
    SetXTwice(c, X17, target, target);
    ExecSeqOne(other, br, a, c17);
    SetXTwice(c, LR, Plus(src, 4), Plus(a, 4));
    SetXApart(c, target, Plus(a, 4));
  }

  lemma BranchSimulates(other: OtherSemantics, src: Addr, dst: Addr, w: Word, c: Core)
    requires IsBranchImm(w) && Aligned(src) && Aligned(dst)
    ensures var ws := CopyBorBl(src, dst, w, w & 0x8000_0000 != 0);
            ExecSeq(other, ws, dst, c) == Expected(other, Decode(w), src, dst, End(dst, ws), c)
  {
    hide Decode, Plus, Distance, ExecSeq, InRange, Low32, AssembleBranch26, AssembleBr, SetX, MovImmediate,
         SignExtend32, Offset26, Imm26, Aligned, IsBranchImm;
    DecodeBranch(w);
    Imm26Agrees(w);
    OffsetsAligned(w);
    AlignedSum(src, Offset26(w));
    var link, target := w & 0x8000_0000 != 0, Plus(src, Offset26(w));
    if InRange(Distance(dst, target), 0x800_0000) {
      NearBranchRuns(other, link, src, dst, target, c);
    } else {
      FarBranchRuns(other, link, src, dst, target, c);
    }
  }

  // -------------------------------------------------------- Literal loads

  function FpSizeOf(size: bv32): FpSize { if size == 0 then S else if size == 1 then D else Q }

  /** The general and SIMD loads and the prefetch of the literal class, named by class and size. */
  function LiteralInstr(size: bv32, fpNeon: bv32, rt: Reg, off: bv64): Instr
    requires size <= 3 && fpNeon <= 1 && !(size == 3 && fpNeon == 1)
  {
    if fpNeon == 0 then
      if size == 0 then LdrW(rt, off) else if size == 1 then LdrX(rt, off)
      else if size == 2 then LdrSW(rt, off) else Prfm(rt, off)
    else
      LdrFp(FpSizeOf(size), rt, off)
  }

  predicate Allocated(w: Word) { IsLdrLiteral(w) ==> !(w >> 30 == 3 && (w >> 26) & 1 == 1) }

  lemma LiteralWordIs(w: Word)
    requires IsLdrLiteral(w) && Allocated(w)
    ensures Decode(w) == LiteralInstr(w >> 30, (w >> 26) & 1, Rd(w), Offset19(w))
  {
    hide Offset19, Rd, Decode;
    LiteralFields(w);
    DecodeLiteral(w);
  }

  lemma ReencodedLiteral(size: bv32, fpNeon: bv32, rt: Reg, delta: bv64)
    requires size <= 3 && fpNeon <= 1 && !(size == 3 && fpNeon == 1) && delta & 3 == 0
    ensures Decode(AssembleLdrLit19(size, fpNeon, rt, Low32(delta)))
         == LiteralInstr(size, fpNeon, rt, SignExtend(delta & 0x1f_ffff, 0x10_0000))
  {
    hide Offset19, Rd, Decode, AssembleLdrLit19, SignExtend, Low32;
    LdrLitDecodes(size, fpNeon, rt, delta);
  }

  lemma LiteralLoads(other: OtherSemantics, size: bv32, rt: Reg, off: bv64, pc: Addr, c: Core)
    requires size <= 2
    ensures Exec(other, LiteralInstr(size, 0, rt, off), pc, c)
         == Next(SetX(c, rt, LiteralValue(c.mem, size, Plus(pc, off))))
  {
    hide Plus, Load32, Load64, SignExtend32, ZeroExtend32, SetX;
  }

  lemma FpLiteralLoads(other: OtherSemantics, size: bv32, rt: Reg, off: bv64, pc: Addr, c: Core)
    requires size <= 2
    ensures Exec(other, LiteralInstr(size, 1, rt, off), pc, c)
         == Next(SetV(c, rt, LoadV(c.mem, FpSizeOf(size), Plus(pc, off))))
  {
    hide Plus, LoadV, SetV;
  }

  lemma PrefetchDoesNothing(other: OtherSemantics, op: Reg, off: bv64, pc: Addr, c: Core)
    ensures Exec(other, LiteralInstr(3, 0, op, off), pc, c) == Next(c)
  {}

  lemma LiteralCases(size: bv32, fpNeon: bv32)
    requires size <= 3 && fpNeon <= 1 && !(size == 3 && fpNeon == 1)
    ensures fpNeon == 0 || fpNeon == 1
    ensures size != 3 ==> size <= 2
  {}

  /** Executing a literal load depends on its address only through the literal's address. */
  lemma LiteralExec(other: OtherSemantics, size: bv32, fpNeon: bv32, rt: Reg, off: bv64, off': bv64, pc: Addr,
                    pc': Addr, c: Core)
    requires size <= 3 && fpNeon <= 1 && !(size == 3 && fpNeon == 1)
    requires Plus(pc, off) == Plus(pc', off') || (fpNeon == 0 && (size == 3 || rt == XZR))
    ensures Exec(other, LiteralInstr(size, fpNeon, rt, off), pc, c)
         == Exec(other, LiteralInstr(size, fpNeon, rt, off'), pc', c)
  {
    hide Plus, Exec, LiteralInstr, LiteralValue, LoadV, SetV;
    LiteralCases(size, fpNeon);
    if fpNeon == 1 {
      FpLiteralLoads(other, size, rt, off, pc, c);
      FpLiteralLoads(other, size, rt, off', pc', c);
    } else if size == 3 {
      PrefetchDoesNothing(other, rt, off, pc, c);
      PrefetchDoesNothing(other, rt, off', pc', c);
    } else {
      LiteralLoads(other, size, rt, off, pc, c);
      LiteralLoads(other, size, rt, off', pc', c);
    }
  }

  lemma NearLiteralRuns(other: OtherSemantics, size: bv32, fpNeon: bv32, rt: Reg, src: Addr, dst: Addr, off: bv64, c: Core)
    requires size <= 3 && fpNeon <= 1 && !(size == 3 && fpNeon == 1)
    requires Aligned(dst) && Aligned(Plus(src, off))
    requires InRange(Distance(dst, Plus(src, off)), 0x10_0000) || (fpNeon == 0 && (size == 3 || rt == XZR))
    ensures var w := AssembleLdrLit19(size, fpNeon, rt, Low32(Distance(dst, Plus(src, off))));
            ExecSeq(other, [w], dst, c) == Continue(Exec(other, LiteralInstr(size, fpNeon, rt, off), src, c), End(dst, [w]))
  {
    hide Decode, Exec, Plus, Distance, ExecSeq, InRange, Low32, AssembleLdrLit19, SignExtend, LiteralInstr, Aligned;
    var target := Plus(src, off);
    var delta := Distance(dst, target);
    var w := AssembleLdrLit19(size, fpNeon, rt, Low32(delta));
    AlignedDelta(dst, target);
    ReencodedLiteral(size, fpNeon, rt, delta);
    ExecSeqOne(other, w, dst, c);
    if InRange(delta, 0x10_0000) {
      TruncateExtend(delta);
      AddBack(dst, target);
    }
    LiteralExec(other, size, fpNeon, rt, off, SignExtend(delta & 0x1f_ffff, 0x10_0000), src, dst, c);
  }

  lemma StableLiteralValue(size: bv32, rt: Reg, src: Addr, off: bv64, copied: Memory, now: Memory)
    requires size <= 2 && LiteralStable(LiteralInstr(size, 0, rt, off), src, copied, now)
    ensures LiteralValue(now, size, Plus(src, off)) == LiteralValue(copied, size, Plus(src, off))
  {
    hide Plus, Load32, Load64, SignExtend32, ZeroExtend32;
  }

  lemma FarLiteralValue(other: OtherSemantics, size: bv32, rt: Reg, src: Addr, off: bv64, copied: Memory, c: Core)
    requires size <= 3 && LiteralStable(LiteralInstr(size, 0, rt, off), src, copied, c.mem)
    requires size == 3 ==> rt == XZR
    ensures Exec(other, LiteralInstr(size, 0, rt, off), src, c)
         == Next(SetX(c, rt, LiteralValue(copied, size, Plus(src, off))))
  {
    hide Plus, Exec, LiteralInstr, LiteralStable, LiteralValue;
    LiteralCases(size, 0);
    if size == 3 {
      PrefetchDoesNothing(other, rt, off, src, c);
    } else {
      LiteralLoads(other, size, rt, off, src, c);
      StableLiteralValue(size, rt, src, off, copied, c.mem);
    }
  }

  lemma FpLoadWord(other: OtherSemantics, size: bv32, rt: Reg, pc: Addr, target: Addr, c: Core)
    requires size <= 2
    ensures Exec(other, Decode(AssembleLdrFpNeonImm9(2 + size, rt, X17, 0)), pc, SetX(c, X17, target))
         == Next(SetV(SetX(c, X17, target), rt, LoadV(c.mem, FpSizeOf(size), target)))
  {
    hide Decode, Plus, AssembleLdrFpNeonImm9, LoadV, SetV;
    FpLoadDecodes(rt);
    SetXTwice(c, X17, target, target);
    PlusZero(target);
  }

  lemma FarFpLiteralRuns(other: OtherSemantics, size: bv32, rt: Reg, src: Addr, dst: Addr, off: bv64, c: Core)
    requires size <= 2
    ensures var target := Plus(src, off);
            var ws := MovImmediate(X17, target) + [AssembleLdrFpNeonImm9(2 + size, rt, X17, 0)];
            && Exec(other, LiteralInstr(size, 1, rt, off), src, c) == Next(SetV(c, rt, LoadV(c.mem, FpSizeOf(size), target)))
            && ExecSeq(other, ws, dst, c)
               == State(End(dst, ws), SetX(SetV(c, rt, LoadV(c.mem, FpSizeOf(size), target)), X17, target))
  {
    hide Decode, Plus, ExecSeq, AssembleLdrFpNeonImm9, MovImmediate, LoadV, Exec, FpSizeOf, LiteralInstr;
    var target := Plus(src, off);
    var w := AssembleLdrFpNeonImm9(2 + size, rt, X17, 0);
    var a := End(dst, MovImmediate(X17, target));
    FpLiteralLoads(other, size, rt, off, src, c);
    MovImmediateRuns(other, X17, target, [w], dst, c);
    FpLoadWord(other, size, rt, a, target, c);
    ExecSeqOne(other, w, a, SetX(c, X17, target));
  }

  lemma LiteralRelocatable(size: bv32, fpNeon: bv32, rt: Reg, off: bv64, src: Addr, dst: Addr)
    requires size <= 3 && fpNeon <= 1 && !(size == 3 && fpNeon == 1)
    ensures var delta := Distance(dst, Plus(src, off));
            Relocatable(LiteralInstr(size, fpNeon, rt, off), src, dst) <==>
            if fpNeon == 0 && size == 3 then InRange(delta, 0x20_0000) || rt == XZR
            else InRange(delta, 0x10_0000) || !InRange(delta, 0x20_0000) || (fpNeon == 0 && rt == XZR)
  {
    hide InRange, Distance, Plus;
  }

  lemma AdjustLiteral(size: bv32, fpNeon: bv32, rt: Reg, off: bv64, src: Addr, dst: Addr, end: Addr, c: Core)
    requires size <= 3 && fpNeon <= 1 && !(size == 3 && fpNeon == 1)
    ensures Adjust(LiteralInstr(size, fpNeon, rt, off), src, dst, end, c) ==
            if fpNeon == 1 && !InRange(Distance(dst, Plus(src, off)), 0x20_0000) then SetX(c, X17, Plus(src, off)) else c
  {
    hide InRange, Distance, Plus, SetX;
  }

  lemma ExpectedNext(other: OtherSemantics, i: Instr, src: Addr, dst: Addr, end: Addr, c: Core, c': Core)
    requires Exec(other, i, src, c) == Next(c')
    ensures Expected(other, i, src, dst, end, c) == State(end, Adjust(i, src, dst, end, c'))
  {
    hide Exec, Adjust;
  }

  lemma LiteralSimulates(other: OtherSemantics, src: Addr, dst: Addr, w: Word, copied: Memory, c: Core)
    requires IsLdrLiteral(w) && Allocated(w) && Aligned(src) && Aligned(dst)
    requires Relocatable(Decode(w), src, dst) && LiteralStable(Decode(w), src, copied, c.mem)
    ensures var ws := CopyLdrLiteral(src, dst, w, copied);
            ExecSeq(other, ws, dst, c) == Expected(other, Decode(w), src, dst, End(dst, ws), c)
  {
    hide Decode, Plus, Distance, ExecSeq, InRange, Low32, AssembleLdrLit19, AssembleLdrFpNeonImm9, SetX, MovImmediate,
         SignExtend32, Offset19, Imm19, Aligned, IsLdrLiteral, LiteralInstr, Exec, Rd, Relocatable, Expected, Adjust,
         LiteralValue, LiteralStable;
    LiteralWordIs(w);
    LiteralFields(w);
    Imm19Agrees(w);
    OffsetsAligned(w);
    var size, fpNeon, rt, off := w >> 30, (w >> 26) & 1, Rd(w), Offset19(w);
    LiteralClass(other, size, fpNeon, rt, src, dst, off, copied, c);
  }

  lemma LiteralClass(other: OtherSemantics, size: bv32, fpNeon: bv32, rt: Reg, src: Addr, dst: Addr, off: bv64,
                     copied: Memory, c: Core)
    requires size <= 3 && fpNeon <= 1 && !(size == 3 && fpNeon == 1)
    requires Aligned(src) && Aligned(dst) && Aligned(off)
    requires Relocatable(LiteralInstr(size, fpNeon, rt, off), src, dst)
    requires LiteralStable(LiteralInstr(size, fpNeon, rt, off), src, copied, c.mem)
    ensures var i, target := LiteralInstr(size, fpNeon, rt, off), Plus(src, off);
            var ws := LiteralWords(size, fpNeon, rt, dst, target, copied);
            ExecSeq(other, ws, dst, c) == Expected(other, i, src, dst, End(dst, ws), c)
  {
    hide Decode, Plus, Distance, ExecSeq, InRange, Low32, AssembleLdrLit19, AssembleLdrFpNeonImm9, SetX, MovImmediate,
         Aligned, LiteralInstr, Exec, Relocatable, Expected, Adjust, LiteralValue, LiteralStable, LoadV, SetV;
    var i, target := LiteralInstr(size, fpNeon, rt, off), Plus(src, off);
    var ws := LiteralWords(size, fpNeon, rt, dst, target, copied);
    AlignedSum(src, off);
    LiteralRelocatable(size, fpNeon, rt, off, src, dst);
    if InRange(Distance(dst, target), 0x20_0000) {
      NearLiteralRuns(other, size, fpNeon, rt, src, dst, off, c);
      LiteralIsNext(other, size, fpNeon, rt, src, off, c);
      ExpectedNext(other, i, src, dst, End(dst, ws), c, Exec(other, i, src, c).core);
      AdjustLiteral(size, fpNeon, rt, off, src, dst, End(dst, ws), Exec(other, i, src, c).core);
    } else if fpNeon == 0 {
      FarLiteralValue(other, size, rt, src, off, copied, c);
      JustMov(other, rt, LiteralValue(copied, size, target), dst, c);
      ExpectedNext(other, i, src, dst, End(dst, ws), c, Exec(other, i, src, c).core);
      AdjustLiteral(size, fpNeon, rt, off, src, dst, End(dst, ws), Exec(other, i, src, c).core);
    } else {
      FarFpLiteralRuns(other, size, rt, src, dst, off, c);
      ExpectedNext(other, i, src, dst, End(dst, ws), c, Exec(other, i, src, c).core);
      AdjustLiteral(size, fpNeon, rt, off, src, dst, End(dst, ws), Exec(other, i, src, c).core);
    }
  }

  lemma LiteralIsNext(other: OtherSemantics, size: bv32, fpNeon: bv32, rt: Reg, src: Addr, off: bv64, c: Core)
    requires size <= 3 && fpNeon <= 1 && !(size == 3 && fpNeon == 1)
    ensures Exec(other, LiteralInstr(size, fpNeon, rt, off), src, c).Next?
  {
    hide Plus, Load32, Load64, LoadV, SignExtend32, SetX, SetV;
  }

  // ------------------------------------------------------------ All classes

  lemma PositionFreeExec(other: OtherSemantics, i: Instr, src: Addr, dst: Addr, c: Core)
    requires PositionFree(i)
    ensures Continue(Exec(other, i, dst, c), Plus(dst, 4)) == Expected(other, i, src, dst, Plus(dst, 4), c)
  {
    hide Plus, SetX, GetX, SetXOrSp, GetXOrSp, LoadV, Load64, Width, MovWideValue, SetV;
    if Links(i) {
      SetXTwice(c, LR, Plus(src, 4), Plus(dst, 4));
    }
  }

  lemma PureCopySimulates(other: OtherSemantics, src: Addr, dst: Addr, w: Word, c: Core)
    requires !IsPcRelAddress(w) && !IsBCond(w) && !IsBranchImm(w) && !IsCbz(w) && !IsTbz(w) && !IsLdrLiteral(w)
    ensures ExecSeq(other, [w], dst, c) == Expected(other, Decode(w), src, dst, End(dst, [w]), c)
  {
    hide Decode, Exec, Plus, ExecSeq, Expected;
    DecodeOther(w);
    ExecSeqOne(other, w, dst, c);
    PositionFreeExec(other, Decode(w), src, dst, c);
  }

  lemma BccSimulates(other: OtherSemantics, src: Addr, dst: Addr, w: Word, c: Core)
    requires IsBCond(w) && Aligned(src) && Aligned(dst) && Relocatable(Decode(w), src, dst)
    ensures var ws := CopyBcc(src, dst, w);
            ExecSeq(other, ws, dst, c) == Expected(other, Decode(w), src, dst, End(dst, ws), c)
  {
    hide Decode, Plus, Distance, ExecSeq, InRange, Low32, SignExtend32, Offset19, Imm19, Aligned, IsBCond, CopyConditional,
         Relocatable, Expected, InvertedBcc;
    DecodeBCond(w);
    Imm19Agrees(w);
    OffsetsAligned(w);
    var target := Plus(src, Offset19(w));
    AlignedSum(src, Offset19(w));
    AlignedDelta(dst, target);
    if InRange(Distance(dst, target), 0x10_0000) { BccWords(w, Distance(dst, target)); }
    BccInverted(w);
    ConditionalSimulates(other, Decode(w), (inv, d) => InvertedBcc(w, inv, d), src, dst, target, 0x10_0000, c);
  }

  lemma CbzSimulates(other: OtherSemantics, src: Addr, dst: Addr, w: Word, c: Core)
    requires IsCbz(w) && Aligned(src) && Aligned(dst) && Relocatable(Decode(w), src, dst)
    ensures var ws := CopyCbz(src, dst, w);
            ExecSeq(other, ws, dst, c) == Expected(other, Decode(w), src, dst, End(dst, ws), c)
  {
    hide Decode, Plus, Distance, ExecSeq, InRange, Low32, SignExtend32, Offset19, Imm19, Aligned, IsCbz, CopyConditional,
         Relocatable, Expected, InvertedCbz, Rd;
    DecodeCbz(w);
    Imm19Agrees(w);
    OffsetsAligned(w);
    var target := Plus(src, Offset19(w));
    AlignedSum(src, Offset19(w));
    AlignedDelta(dst, target);
    if InRange(Distance(dst, target), 0x10_0000) { CbzWords(w, Distance(dst, target)); }
    CbzInverted(w);
    ConditionalSimulates(other, Decode(w), (inv, d) => InvertedCbz(w, inv, d), src, dst, target, 0x10_0000, c);
  }

  lemma TbzSimulates(other: OtherSemantics, src: Addr, dst: Addr, w: Word, c: Core)
    requires IsTbz(w) && Aligned(src) && Aligned(dst) && Relocatable(Decode(w), src, dst)
    ensures var ws := CopyTbz(src, dst, w);
            ExecSeq(other, ws, dst, c) == Expected(other, Decode(w), src, dst, End(dst, ws), c)
  {
    hide Decode, Plus, Distance, ExecSeq, InRange, Low32, SignExtend32, Offset14, Imm14, Aligned, IsTbz, CopyConditional,
         Relocatable, Expected, InvertedTbz, Rd;
    DecodeTbz(w);
    Imm14Agrees(w);
    OffsetsAligned(w);
    var target := Plus(src, Offset14(w));
    AlignedSum(src, Offset14(w));
    AlignedDelta(dst, target);
    if InRange(Distance(dst, target), 0x2000) { TbzWords(w, Distance(dst, target)); }
    TbzInverted(w);
    ConditionalSimulates(other, Decode(w), (inv, d) => InvertedTbz(w, inv, d), src, dst, target, 0x2000, c);
  }

  /** The simulation: run the words `CopyInstruction` emits at `dst`, up to their first transfer or
    * their end, and the state is the one the source instruction calls for. */
  lemma RelocationSimulates(other: OtherSemantics, src: Addr, dst: Addr, w: Word, copied: Memory, c: Core)
    requires Aligned(src) && Aligned(dst) && Allocated(w)
    requires Relocatable(Decode(w), src, dst) && LiteralStable(Decode(w), src, copied, c.mem)
    ensures var ws := CopyWords(src, dst, w, copied);
            ExecSeq(other, ws, dst, c) == Expected(other, Decode(w), src, dst, End(dst, ws), c)
  {
    hide Decode, ExecSeq, Aligned, IsPcRelAddress, IsBCond, IsBranchImm, IsCbz, IsTbz, IsLdrLiteral, Allocated,
         Relocatable, Expected, CopyAdr, CopyBcc, CopyBorBl, CopyCbz, CopyTbz, CopyLdrLiteral, LiteralStable, End;
    if IsPcRelAddress(w) {
      if w & 0x8000_0000 == 0 { AdrSimulates(other, src, dst, w, c); } else { AdrpSimulates(other, src, dst, w, c); }
    } else if IsBCond(w) {
      BccSimulates(other, src, dst, w, c);
    } else if IsBranchImm(w) {
      BranchSimulates(other, src, dst, w, c);
    } else if IsCbz(w) {
      CbzSimulates(other, src, dst, w, c);
    } else if IsTbz(w) {
      TbzSimulates(other, src, dst, w, c);
    } else if IsLdrLiteral(w) {
      LiteralSimulates(other, src, dst, w, copied, c);
    } else {
      PureCopySimulates(other, src, dst, w, c);
    }
  }
}
