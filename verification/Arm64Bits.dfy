/** Bit-level facts: the relocator's encodings against the architecture's decoder, and the
  * arithmetic of the MOV sequences. Each is a statement about words alone.
  */
module Arm64Bits {
  import opened Arm64
  import opened Arm64Encoding
  import opened Arm64Copy
  import opened Arm64Meaning

  /** The code's immediates are the architecture's offsets. */
  lemma Adr19ImmAgrees(w: Word)
    ensures SignExtend32(Adr19Imm(w)) == Imm21(w)
  {}

  lemma Imm19Agrees(w: Word)
    ensures SignExtend32(Imm19(w)) == Offset19(w)
  {}

  lemma Imm26Agrees(w: Word)
    ensures SignExtend32(Imm26(w)) == Offset26(w)
  {}

  lemma Imm14Agrees(w: Word)
    ensures SignExtend32(Imm14(w)) == Offset14(w)
  {}

  /** A displacement in range survives truncation to its low 21 bits. */
  lemma TruncateExtend(delta: bv64)
    requires InRange(delta, 0x10_0000)
    ensures SignExtend(delta & 0x1f_ffff, 0x10_0000) == delta
  {}

  lemma Adr19Fields(kind: bv32, rd: Reg, delta: bv64)
    requires kind <= 1
    ensures var w := AssembleAdr19(kind, rd, Low32(delta));
            IsPcRelAddress(w) && (w & 0x8000_0000 == 0 <==> kind == 0) && Rd(w) == rd
            && Imm21(w) == SignExtend(delta & 0x1f_ffff, 0x10_0000)
  {}

  lemma AdrDecodes(rd: Reg, delta: bv64)
    requires InRange(delta, 0x10_0000)
    ensures Decode(AssembleAdr19(0, rd, Low32(delta))) == Adr(rd, delta)
    ensures Decode(AssembleAdr19(1, rd, Low32(delta))) == Adrp(rd, PageBase(delta))
  {
    hide SignExtend, Imm21, AssembleAdr19, InRange, PageBase;
    TruncateExtend(delta);
    Adr19Fields(0, rd, delta);
    Adr19Fields(1, rd, delta);
  }

  lemma BccDecodes(cond: bv4, delta: bv64)
    requires InRange(delta, 0x10_0000) && delta & 3 == 0
    ensures Decode(AssembleBcc(cond as bv32, Low32(delta))) == BCond(cond, delta)
  {}

  lemma BranchDecodes(link: bool, delta: bv64)
    requires InRange(delta, 0x800_0000) && delta & 3 == 0
    ensures Decode(AssembleBranch26(link, Low32(delta))) == B(link, delta)
  {}

  lemma BrDecodes(rn: Reg, link: bool)
    ensures Decode(AssembleBr(rn, link)) == Br(link, rn)
  {}

  lemma CbzDecodes(sf: bool, nz: bool, rt: Reg, delta: bv64)
    requires InRange(delta, 0x10_0000) && delta & 3 == 0
    ensures Decode(AssembleCbz19(if sf then 1 else 0, if nz then 1 else 0, rt, Low32(delta))) == Cbz(sf, nz, rt, delta)
  {}

  lemma TbzDecodes(nz: bool, rt: Reg, bit: bv6, delta: bv64)
    requires InRange(delta, 0x8000) && delta & 3 == 0
    ensures Decode(AssembleTbz14(bit as bv32 >> 5, if nz then 1 else 0, rt, bit as bv32, Low32(delta)))
         == Tbz(nz, rt, bit, delta)
  {}

  /** The 19-bit field wraps: whatever the displacement, the load reads from `delta` reduced to the
    * 21-bit signed range. */
  lemma LdrLitDecodes(size: bv32, fpNeon: bv32, rt: Reg, delta: bv64)
    requires size <= 3 && fpNeon <= 1 && delta & 3 == 0
    ensures var w := AssembleLdrLit19(size, fpNeon, rt, Low32(delta));
            IsLdrLiteral(w) && w >> 30 == size && (w & 0x400_0000 == 0 <==> fpNeon == 0) && Rd(w) == rt
            && Decode(w) == DecodeLdrLiteral(w)
            && Offset19(w) == SignExtend(delta & 0x1f_ffff, 0x10_0000)
  {}

  lemma FpLoadDecodes(rt: Reg)
    ensures Decode(AssembleLdrFpNeonImm9(2, rt, X17, 0)) == LdrFpBase(S, rt, X17, 0)
    ensures Decode(AssembleLdrFpNeonImm9(3, rt, X17, 0)) == LdrFpBase(D, rt, X17, 0)
    ensures Decode(AssembleLdrFpNeonImm9(4, rt, X17, 0)) == LdrFpBase(Q, rt, X17, 0)
  {}

  lemma AddDecodes(rd: Reg, imm: bv32)
    requires imm <= 0xfff
    ensures Decode(AssembleAddImm12(0, rd, rd, imm, 0)) == AddImm(false, rd, rd, imm as bv64)
  {}

  lemma MovDecodes(sf: bool, kind: MovKind, rd: Reg, imm: bv32, hw: bv2)
    requires imm <= 0xffff && (sf || hw < 2)
    ensures Decode(AssembleMov16(if sf then 1 else 0, MovType(kind), rd, imm, hw as bv32))
         == MovWide(sf, kind, rd, imm as bv64, hw)
  {}

  // ----------------------------------------------------- Immediate synthesis

  lemma InsertAll(imm: bv64, v: bv64)
    ensures Insert(Insert(Insert(Insert(v, Low32(imm >> 48) & 0xffff, 3), Low32(imm >> 32) & 0xffff, 2),
                          Low32(imm >> 16) & 0xffff, 1), Low32(imm) & 0xffff, 0) == imm
  {}

  /** Inserting higher pieces leaves the lower ones at the fill. */
  lemma StillFill2(fill: bv64, p3: bv32)
    requires fill == 0 || fill == 0xffff_ffff_ffff_ffff
    ensures PieceAt(Insert(fill, p3, 3), 2) == if fill == 0 then 0 else 0xffff
  {}

  lemma StillFill1(fill: bv64, p3: bv32, p2: bv32)
    requires fill == 0 || fill == 0xffff_ffff_ffff_ffff
    ensures PieceAt(Insert(Insert(fill, p3, 3), p2, 2), 1) == if fill == 0 then 0 else 0xffff
  {}

  lemma StillFill0(fill: bv64, p3: bv32, p2: bv32, p1: bv32)
    requires fill == 0 || fill == 0xffff_ffff_ffff_ffff
    ensures PieceAt(Insert(Insert(Insert(fill, p3, 3), p2, 2), p1, 1), 0) == if fill == 0 then 0 else 0xffff
  {}

  lemma InsertSame(v: bv64, piece: bv32, hw: bv2)
    requires PieceAt(v, hw) == piece
    ensures Insert(v, piece, hw) == v
  {}

  lemma FirstIsInsert(piece: bv32, hw: bv2, prior: bv64)
    requires piece <= 0xffff
    ensures MovWideValue(MovZ, prior, piece as bv64, hw) == Insert(0, piece, hw)
  {}

  lemma FirstIsInvertedInsert(piece: bv32, hw: bv2, prior: bv64)
    requires piece <= 0xffff
    ensures MovWideValue(MovN, prior, (piece ^ 0xffff) as bv64, hw) == Insert(0xffff_ffff_ffff_ffff, piece, hw)
  {}

  lemma StillFill3(fill: bv64)
    requires fill == 0 || fill == 0xffff_ffff_ffff_ffff
    ensures PieceAt(fill, 3) == if fill == 0 then 0 else 0xffff
  {}

  lemma InvertBound(piece: bv32)
    requires piece <= 0xffff
    ensures piece ^ 0xffff <= 0xffff
  {}

  lemma MaskBound(x: bv32)
    ensures x & 0xffff <= 0xffff
  {}

  lemma Movn32Value(imm: bv64, prior: bv64)
    requires FitsMovn32(imm)
    ensures Width(false, MovWideValue(MovN, prior, (Piece(imm, 0) ^ 0xffff) as bv64, 0)) == imm
  {}

  // ------------------------------------------------------- Branch words

  lemma AddBack(base: bv64, target: bv64)
    ensures Plus(base, Distance(base, target)) == target
  {
    assert Distance(base, target) == target - base;
    assert Plus(base, target - base) == base + (target - base);
  }

  lemma Add44(base: bv64)
    ensures Plus(base, 8) == Plus(Plus(base, 4), 4)
  {}

  lemma AlignedDelta(base: bv64, target: bv64)
    requires Aligned(base) && Aligned(target)
    ensures Distance(base, target) & 3 == 0
  {}

  lemma AlignedSum(base: bv64, off: bv64)
    requires Aligned(base) && Aligned(off)
    ensures Aligned(Plus(base, off))
  {}

  lemma OffsetsAligned(w: Word)
    ensures Aligned(Offset19(w)) && Aligned(Offset26(w)) && Aligned(Offset14(w))
  {}

  lemma BccWords(w: Word, delta: bv64)
    requires InRange(delta, 0x10_0000) && delta & 3 == 0
    ensures Decode(InvertedBcc(w, false, Low32(delta))) == BCond((w & 0xf) as bv4, delta)
  {}

  lemma BccInverted(w: Word)
    ensures Decode(InvertedBcc(w, true, 8)) == BCond(((w & 0xf) as bv4) ^ 1, 8)
  {}

  lemma CbzWords(w: Word, delta: bv64)
    requires InRange(delta, 0x10_0000) && delta & 3 == 0
    ensures Decode(InvertedCbz(w, false, Low32(delta)))
         == Cbz(w & 0x8000_0000 != 0, w & 0x100_0000 != 0, Rd(w), delta)
  {}

  lemma CbzInverted(w: Word)
    ensures Decode(InvertedCbz(w, true, 8)) == Cbz(w & 0x8000_0000 != 0, w & 0x100_0000 == 0, Rd(w), 8)
  {}

  lemma TbzWords(w: Word, delta: bv64)
    requires InRange(delta, 0x2000) && delta & 3 == 0
    ensures Decode(InvertedTbz(w, false, Low32(delta)))
         == Tbz(w & 0x100_0000 != 0, Rd(w), (((w >> 31) << 5) | ((w >> 19) & 0x1f)) as bv6, delta)
  {}

  lemma TbzInverted(w: Word)
    ensures Decode(InvertedTbz(w, true, 8))
         == Tbz(w & 0x100_0000 == 0, Rd(w), (((w >> 31) << 5) | ((w >> 19) & 0x1f)) as bv6, 8)
  {}

  lemma ConditionInverts(cond: bv4, nzcv: bv4)
    requires cond < 14
    ensures ConditionHolds(cond ^ 1, nzcv) != ConditionHolds(cond, nzcv)
  {}

  lemma ConditionAlways(cond: bv4, nzcv: bv4)
    requires cond >= 14
    ensures ConditionHolds(cond, nzcv) && ConditionHolds(cond ^ 1, nzcv)
  {}

  // ------------------------------------------------------------ Addresses

  lemma PlusIs(a: bv64, b: bv64)
    ensures Plus(a, b) == a + b
  {}

  lemma DistanceIs(a: bv64, b: bv64)
    ensures Distance(a, b) == b - a
  {}

  lemma PageBaseIs(n: bv64)
    ensures PageBase(n) == n << 12
  {}

  lemma PageNumberIs(a: Addr)
    ensures PageNumber(a) == a >> 12
  {}

  lemma PageBaseOfSum(a: bv64, b: bv64)
    ensures PageBase(a + b) == Plus(a << 12, b << 12)
  {}

  lemma PageBaseOfDifference(a: bv64, b: bv64)
    ensures PageBase(b - a) == Distance(a << 12, b << 12)
  {}

  lemma PageBaseOfShift(a: Addr)
    ensures PageBase(a >> 12) == PageOf(a)
  {}

  lemma PageBasePlus(a: bv64, b: bv64)
    ensures PageBase(Plus(a, b)) == Plus(PageBase(a), PageBase(b))
  {
    hide *;
    PlusIs(a, b);
    PageBaseOfSum(a, b);
    PageBaseIs(a);
    PageBaseIs(b);
  }

  lemma PageBaseDistance(a: bv64, b: bv64)
    ensures PageBase(Distance(a, b)) == Distance(PageBase(a), PageBase(b))
  {
    hide *;
    DistanceIs(a, b);
    PageBaseOfDifference(a, b);
    PageBaseIs(a);
    PageBaseIs(b);
  }

  lemma PageRounds(a: Addr)
    ensures PageBase(PageNumber(a)) == PageOf(a)
  {
    hide *;
    PageNumberIs(a);
    PageBaseOfShift(a);
  }

  lemma PageIsPage(n: bv64)
    ensures PageOf(PageBase(n)) == PageBase(n)
  {}

  lemma PageDeltaShifted(dst: Addr, target: Addr)
    ensures Plus(PageOf(dst), PageBase(PageDelta(target, dst))) == PageOf(target)
  {
    hide Plus, Distance, PageOf, PageBase, PageNumber;
    PageBaseDistance(PageNumber(dst), PageNumber(target));
    PageRounds(dst);
    PageRounds(target);
    AddBack(PageOf(dst), PageOf(target));
  }

  lemma AdrpTargetAgrees(src: Addr, imm: bv64)
    ensures PageBase(Plus(PageNumber(src), imm)) == Plus(PageOf(src), PageBase(imm))
  {
    hide Plus, PageOf, PageBase, PageNumber;
    PageBasePlus(PageNumber(src), imm);
    PageRounds(src);
  }

  lemma LowAdd32(target: Addr)
    requires target <= 0xffff_ffff
    ensures Width(false, Plus(PageOf(target), Low12(target) as bv64)) == target
  {}

  lemma Low12Small(target: Addr)
    ensures Low12(target) <= 0xfff
  {}

  lemma PlusZero(a: Addr)
    ensures Plus(a, 0) == a
  {}

  // --------------------------------------------- Classes of source words

  lemma DecodeAdr(w: Word)
    requires IsPcRelAddress(w)
    ensures Decode(w) == if w & 0x8000_0000 == 0 then Adr(Rd(w), Imm21(w)) else Adrp(Rd(w), PageBase(Imm21(w)))
  {}

  lemma DecodeBCond(w: Word)
    requires IsBCond(w)
    ensures !IsPcRelAddress(w) && Decode(w) == BCond((w & 0xf) as bv4, Offset19(w))
  {}

  lemma DecodeBranch(w: Word)
    requires IsBranchImm(w)
    ensures !IsPcRelAddress(w) && !IsBCond(w) && Decode(w) == B(w & 0x8000_0000 != 0, Offset26(w))
  {}

  lemma DecodeCbz(w: Word)
    requires IsCbz(w)
    ensures !IsPcRelAddress(w) && !IsBCond(w) && !IsBranchImm(w)
    ensures Decode(w) == Cbz(w & 0x8000_0000 != 0, w & 0x100_0000 != 0, Rd(w), Offset19(w))
  {}

  lemma DecodeTbz(w: Word)
    requires IsTbz(w)
    ensures !IsPcRelAddress(w) && !IsBCond(w) && !IsBranchImm(w) && !IsCbz(w)
    ensures Decode(w)
         == Tbz(w & 0x100_0000 != 0, Rd(w), (((w >> 31) << 5) | ((w >> 19) & 0x1f)) as bv6, Offset14(w))
  {}

  lemma DecodeLiteral(w: Word)
    requires IsLdrLiteral(w)
    ensures !IsPcRelAddress(w) && !IsBCond(w) && !IsBranchImm(w) && !IsCbz(w) && !IsTbz(w)
    ensures Decode(w) == DecodeLdrLiteral(w)
  {}

  lemma LiteralFields(w: Word)
    ensures w >> 30 <= 3 && (w >> 26) & 1 <= 1
    ensures (w & 0x400_0000 == 0) <==> (w >> 26) & 1 == 0
  {}

  /** The decodings whose meaning does not involve their own address, but for a link. */
  predicate PositionFree(i: Instr) {
    i.MovWide? || i.AddImm? || i.LdrFpBase? || i.LdrXBase? || i.Br? || i.Ret? || i.Other?
  }

  lemma DecodeOther(w: Word)
    requires !IsPcRelAddress(w) && !IsBCond(w) && !IsBranchImm(w) && !IsCbz(w) && !IsTbz(w) && !IsLdrLiteral(w)
    ensures PositionFree(Decode(w))
  {}

  // --------------------------------------------- Counterexample arithmetic

  lemma AddClobbersSp(low: bv32)
    requires low <= 0xfff
    ensures Width(false, Plus(0x1_0000_0000, low as bv64)) != 0x1_0000_0000
  {}

  lemma WidthTruncates(v: bv64, target: bv64)
    requires target > 0xffff_ffff
    ensures Width(false, v) != target
  {}

  lemma SmallSteps(dst: Addr)
    ensures InRange(Distance(dst, Plus(dst, 8)), 0x2000)
  {}

  lemma NarrowerRange(d: bv64)
    requires InRange(d, 0x2000)
    ensures InRange(d, 0x10_0000)
  {}

  lemma ZeroTestFlips(sf: bool, target: bv64)
    ensures IsZero(sf, if IsZero(sf, target) then 1 else 0) != IsZero(sf, target)
  {}

  lemma BitFlips(v: bv64, bit: bv6)
    ensures BitSet(!v, bit) != BitSet(v, bit)
  {}
}
