/** The ARM64 relocator (detours/src/disasm.cpp:3911-4274). Each `Copy...` function below gives the
  * words the corresponding routine emits; the class has the routines themselves, writing through
  * the destination buffer and updating `m_pbTarget`, each proved against its function.
  */
module Arm64Copy {
  import opened Arm64
  import opened Arm64Encoding

  function Low12(a: Addr): bv32 { Low32(a) & 0xfff }

  // ------------------------------------------------- Immediate synthesis

  function Piece(imm: bv64, p: nat): bv32
    requires p < 4
  {
    if p == 3 then Low32(imm >> 48) & 0xffff
    else if p == 2 then Low32(imm >> 32) & 0xffff
    else if p == 1 then Low32(imm >> 16) & 0xffff
    else Low32(imm) & 0xffff
  }

  function CountPieces(imm: bv64, value: bv32): nat {
    (if Piece(imm, 3) == value then 1 else 0) + (if Piece(imm, 2) == value then 1 else 0)
    + (if Piece(imm, 1) == value then 1 else 0) + (if Piece(imm, 0) == value then 1 else 0)
  }

  function DefaultPiece(imm: bv64): bv32 {
    if CountPieces(imm, 0xffff) > CountPieces(imm, 0) then 0xffff else 0
  }

  /** Whether a piece gets an instruction; `first` while none has been emitted. */
  predicate EmitsPiece(cur: bv32, def: bv32, last: bool, first: bool) { cur != def || (last && first) }

  function MovPiece(rd: Reg, cur: bv32, def: bv32, hw: bv2, first: bool): Word {
    if !first then AssembleMov16(1, 3, rd, cur, hw as bv32)
    else if def == 0xffff then AssembleMov16(1, 0, rd, cur ^ 0xffff, hw as bv32)
    else AssembleMov16(1, 2, rd, cur, hw as bv32)
  }

  function PieceWords(rd: Reg, cur: bv32, def: bv32, hw: bv2, first: bool): seq<Word> {
    if EmitsPiece(cur, def, hw == 0, first) then [MovPiece(rd, cur, def, hw, first)] else []
  }

  /** `first` once the pieces above `p` have been handled. */
  predicate FirstAt(imm: bv64, def: bv32, p: nat)
    requires p < 4
  {
    && (p < 3 ==> Piece(imm, 3) == def)
    && (p < 2 ==> Piece(imm, 2) == def)
    && (p < 1 ==> Piece(imm, 1) == def)
  }

  /** The words of the loop over pieces 3 down to 0. */
  function MovPieces(rd: Reg, imm: bv64, def: bv32): seq<Word> {
    PieceWords(rd, Piece(imm, 3), def, 3, true)
    + (PieceWords(rd, Piece(imm, 2), def, 2, FirstAt(imm, def, 2))
       + (PieceWords(rd, Piece(imm, 1), def, 1, FirstAt(imm, def, 1))
          + PieceWords(rd, Piece(imm, 0), def, 0, FirstAt(imm, def, 0))))
  }

  predicate FitsMovn32(imm: bv64) { Piece(imm, 3) == 0 && Piece(imm, 2) == 0 && Piece(imm, 1) == 0xffff }

  function MovImmediate(rd: Reg, imm: bv64): seq<Word> {
    if FitsMovn32(imm) then [AssembleMov16(0, 0, rd, Piece(imm, 0) ^ 0xffff, 0)]
    else MovPieces(rd, imm, DefaultPiece(imm))
  }

  // --------------------------------------------------------- The copiers

  function PageDelta(target: Addr, dst: Addr): bv64 { Distance(PageNumber(dst), PageNumber(target)) }

  function AdrTarget(src: Addr, w: Word): Addr { Plus(src, SignExtend32(Adr19Imm(w))) }

  function AdrpTarget(src: Addr, w: Word): Addr { PageBase(Plus(PageNumber(src), SignExtend32(Adr19Imm(w)))) }

  function CopyAdr(src: Addr, dst: Addr, w: Word): seq<Word> {
    if w & 0x8000_0000 == 0 then
      var target := AdrTarget(src, w);
      var delta := Distance(dst, target);
      var deltaPage := PageDelta(target, dst);
      if InRange(delta, 0x10_0000) then [AssembleAdr19(0, Rd(w), Low32(delta))]
      else if InRange(deltaPage, 0x10_0000) then
        [AssembleAdr19(1, Rd(w), Low32(deltaPage)), AssembleAddImm12(0, Rd(w), Rd(w), Low12(target), 0)]
      else MovImmediate(Rd(w), target)
    else
      var target := AdrpTarget(src, w);
      var deltaPage := PageDelta(target, dst);
      if InRange(deltaPage, 0x10_0000) then [AssembleAdr19(1, Rd(w), Low32(deltaPage))]
      else MovImmediate(Rd(w), target)
  }

  /** The three shapes a relocated conditional branch can take: re-encoded; inverted over a B;
    * MOV x17 then inverted over a BR x17. `cond(inverted, delta)` assembles the condition. */
  function CopyConditional(cond: (bool, bv32) -> Word, near: bv64, target: Addr, dst: Addr): seq<Word> {
    var delta := Distance(dst, target);
    var delta4 := Distance(Plus(dst, 4), target);
    if InRange(delta, near) then [cond(false, Low32(delta))]
    else if InRange(delta4, 0x800_0000) then [cond(true, 8), AssembleBranch26(false, Low32(delta4))]
    else MovImmediate(X17, target) + [cond(true, 8), AssembleBr(X17, false)]
  }

  function Target19(src: Addr, w: Word): Addr { Plus(src, SignExtend32(Imm19(w))) }
  function Target26(src: Addr, w: Word): Addr { Plus(src, SignExtend32(Imm26(w))) }
  function Target14(src: Addr, w: Word): Addr { Plus(src, SignExtend32(Imm14(w))) }

  function InvertedBcc(w: Word, invert: bool, delta: bv32): Word {
    AssembleBcc(if invert then (w & 0xf) ^ 1 else w & 0xf, delta)
  }

  function InvertedCbz(w: Word, invert: bool, delta: bv32): Word {
    var nz := (w >> 24) & 1;
    AssembleCbz19(w >> 31, if invert then nz ^ 1 else nz, Rd(w), delta)
  }

  function InvertedTbz(w: Word, invert: bool, delta: bv32): Word {
    var nz := (w >> 24) & 1;
    AssembleTbz14(w >> 31, if invert then nz ^ 1 else nz, Rd(w), (w >> 19) & 0x1f, delta)
  }

  function CopyBcc(src: Addr, dst: Addr, w: Word): seq<Word> {
    CopyConditional((inv, d) => InvertedBcc(w, inv, d), 0x10_0000, Target19(src, w), dst)
  }

  function CopyCbz(src: Addr, dst: Addr, w: Word): seq<Word> {
    CopyConditional((inv, d) => InvertedCbz(w, inv, d), 0x10_0000, Target19(src, w), dst)
  }

  function CopyTbz(src: Addr, dst: Addr, w: Word): seq<Word> {
    CopyConditional((inv, d) => InvertedTbz(w, inv, d), 0x2000, Target14(src, w), dst)
  }

  function CopyBorBl(src: Addr, dst: Addr, w: Word, link: bool): seq<Word> {
    var target := Target26(src, w);
    var delta := Distance(dst, target);
    if InRange(delta, 0x800_0000) then [AssembleBranch26(link, Low32(delta))]
    else MovImmediate(X17, target) + [AssembleBr(X17, link)]
  }

  /** The value the relocator reads from memory while it copies a general-register literal load. */
  function LiteralValue(mem: Memory, size: bv32, target: Addr): bv64 {
    if size == 0 then ZeroExtend32(Load32(mem, target))
    else if size == 1 then Load64(mem, target)
    else if size == 2 then SignExtend32(Load32(mem, target))
    else 0
  }

  function LiteralWords(size: bv32, fpNeon: bv32, rt: Reg, dst: Addr, target: Addr, mem: Memory): seq<Word> {
    var delta := Distance(dst, target);
    if InRange(delta, 0x20_0000) then [AssembleLdrLit19(size, fpNeon, rt, Low32(delta))]
    else if fpNeon == 0 then MovImmediate(rt, LiteralValue(mem, size, target))
    else MovImmediate(X17, target) + [AssembleLdrFpNeonImm9(2 + size, rt, X17, 0)]
  }

  function CopyLdrLiteral(src: Addr, dst: Addr, w: Word, mem: Memory): seq<Word> {
    LiteralWords(w >> 30, (w >> 26) & 1, Rd(w), dst, Target19(src, w), mem)
  }

  /** The words `CopyInstruction` emits at `dst` for the word `w` found at `src`. */
  function CopyWords(src: Addr, dst: Addr, w: Word, mem: Memory): seq<Word> {
    if IsPcRelAddress(w) then CopyAdr(src, dst, w)
    else if IsBCond(w) then CopyBcc(src, dst, w)
    else if IsBranchImm(w) then CopyBorBl(src, dst, w, w & 0x8000_0000 != 0)
    else if IsCbz(w) then CopyCbz(src, dst, w)
    else if IsTbz(w) then CopyTbz(src, dst, w)
    else if IsLdrLiteral(w) then CopyLdrLiteral(src, dst, w, mem)
    else [w]
  }

  /** The branch target recorded in `m_pbTarget`; ADR and literal loads leave it alone. */
  function BranchTarget(src: Addr, w: Word, otherwise: Addr): Addr {
    if IsPcRelAddress(w) then otherwise
    else if IsBCond(w) then Target19(src, w)
    else if IsBranchImm(w) then Target26(src, w)
    else if IsCbz(w) then Target19(src, w)
    else if IsTbz(w) then Target14(src, w)
    else otherwise
  }
}
