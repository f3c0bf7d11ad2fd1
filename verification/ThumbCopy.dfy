/** What `CDetourDis` writes for one Thumb-2 instruction (detours/src/disasm.cpp:2809-3345): halfwords at
  * the destination and, for the long forms, one word in the pool.
  */
module ThumbCopy {
  import opened ThumbEncoding
  import opened ThumbMachine

  /** `pool` is the word at the decremented pool pointer, if the form needs one. */
  datatype Copied = Copied(code: seq<Half>, pool: seq<bv32>)

  function Halves(w: Long): seq<Half> { [High(w), Low(w)] }

  // --------------------------------------------------------------------- The emitters

  function LiteralWord(reg: Reg, imm: bv32, add: bv32): Long {
    0xf85f_0000 | (add << 23) | ((reg as bv32) << 12) | (imm & 0xfff)
  }

  /** CalculateNewDelta of the literal plus 2, which is rounded down later. */
  function LiteralDelta(literal: Addr, dst: Addr): bv32 { literal + 2 - (dst + 4) }

  function EmitLiteralLoad12(dst: Addr, reg: Reg, literal: Addr): Long {
    var newDelta := LiteralDelta(literal, dst);
    if IsPositive(newDelta) then LiteralWord(reg, RoundedTo4(newDelta), 1)
    else LiteralWord(reg, RoundedTo4(Negated(newDelta)), 0)
  }

  predicate IsPositive(x: bv32) { 0 < x < 0x8000_0000 }

  function RoundedTo4(x: bv32): bv32 { x & 0xffc }

  function LdrNoOffset(reg: Reg): Half { 0x6800 | ((reg as bv16) << 3) | (reg as bv16) }

  function LdrNoOffsetW(reg: Reg): Long { 0xf8d0_0000 | ((reg as bv32) << 16) | ((reg as bv32) << 12) }

  predicate IsLowReg(reg: Reg) { reg <= 7 }

  function EmitImmediateRegisterLoad(reg: Reg): seq<Half> {
    if IsLowReg(reg) then [LdrNoOffset(reg)] else Halves(LdrNoOffsetW(reg))
  }

  function EmitLongLiteralLoad(dst: Addr, reg: Reg, target: bv32, pool: Addr): Copied {
    Copied(Halves(EmitLiteralLoad12(dst, reg, pool)) + if reg != PC then EmitImmediateRegisterLoad(reg) else [], [target])
  }

  function EmitLongBranch(dst: Addr, target: Addr, pool: Addr): Copied {
    EmitLongLiteralLoad(dst, PC, WithBit0(target), pool)
  }

  // ----------------------------------------------------------------------- The copies

  /** CBZ becomes CBNZ and the reverse. */
  function InvertedCbz(op: Half): Half { (op & 0x3ff) | (if op & 0x800 != 0 then 0xb000 else 0xb800) }

  function CopyCbz(src: Addr, dst: Addr, op: Half, pool: Addr): Copied {
    var target := BranchTarget(src, DecodeBranch5(op));
    var newDelta := Minus(target, ReadPc(dst));
    if Fits5(newDelta) then Copied([EncodeBranch5(op, newDelta)], [])
    else
      var long := EmitLongBranch(Plus(dst, 2), target, pool);
      Copied([InvertedCbz(EncodeBranch5(op, 2))] + long.code, long.pool)
  }

  /** Branches over the 4 bytes of a long branch. */
  const OVER: Half := 0xe001

  function CopyBCond(src: Addr, dst: Addr, op: Half, pool: Addr): Copied {
    var target := BranchTarget(src, DecodeBranch8(op));
    var newDelta := Minus(target, ReadPc(dst));
    if Fits8(newDelta) then Copied([EncodeBranch8(op, newDelta)], [])
    else
      var long := EmitLongBranch(Plus(dst, 4), target, pool);
      Copied([EncodeBranch8(op, 0), OVER] + long.code, long.pool)
  }

  const B_W: Long := 0xf000_9000

  function CopyB(src: Addr, dst: Addr, op: Half, pool: Addr): Copied {
    var target := BranchTarget(src, DecodeBranch11(op));
    var newDelta := Minus(target, ReadPc(dst));
    if Fits11(newDelta) then Copied([EncodeBranch11(op, newDelta)], [])
    else if Fits24(newDelta) then Copied(Halves(EncodeBranch24(B_W, newDelta)), [])
    else EmitLongBranch(dst, target, pool)
  }

  function CopyBCondW(src: Addr, dst: Addr, op: Long, pool: Addr): Copied {
    var target := BranchTarget(src, DecodeBranch20(op));
    var newDelta := Minus(target, ReadPc(dst));
    if Fits20(newDelta) then Copied(Halves(EncodeBranch20(op, newDelta)), [])
    else
      var long := EmitLongBranch(Plus(dst, 6), target, pool);
      Copied(Halves(EncodeBranch20(op, 2)) + [OVER] + long.code, long.pool)
  }

  function CopyBW(src: Addr, dst: Addr, op: Long, pool: Addr): Copied {
    var target := BranchTarget(src, DecodeBranch24(op));
    var newDelta := Minus(target, ReadPc(dst));
    if Fits24(newDelta) then Copied(Halves(EncodeBranch24(op, newDelta)), []) else EmitLongBranch(dst, target, pool)
  }

  const BLX_LR: Half := 0x47f0

  function CopyBl(src: Addr, dst: Addr, op: Long, pool: Addr): Copied {
    var target := BranchTarget(src, DecodeBranch24(op));
    Copied(Halves(EmitLiteralLoad12(dst, LR, pool)) + [BLX_LR], [WithBit0(target)])
  }

  /** The sign of the offset is not looked at. */
  function CopyLiteralLoad32(src: Addr, dst: Addr, op: Long, pool: Addr): Copied {
    EmitLongLiteralLoad(dst, LiteralRegW(op), Plus(ReadPc(Align4(src)), Literal12(op)), pool)
  }

  function CopyLiteralLoad16(src: Addr, dst: Addr, op: Half, pool: Addr): Copied {
    EmitLongLiteralLoad(dst, LiteralReg(op), Plus(ReadPc(Align4(src)), Literal8(op)), pool)
  }

  function CopyShort(src: Addr, dst: Addr, op: Half, pool: Addr): Copied {
    if IsCbz(op) then CopyCbz(src, dst, op, pool)
    else if IsBCond(op) then CopyBCond(src, dst, op, pool)
    else if IsB(op) then CopyB(src, dst, op, pool)
    else if IsLdrLiteral(op) then CopyLiteralLoad16(src, dst, op, pool)
    else Copied([op], [])
  }

  // The tests of BeginCopy32 and of the functions it calls, in their order; what passes none of them,
  // and table branches on a register other than the program counter, are copied.
  predicate LooksLikeBCondW(op: Long) { op & 0xf800_d000 == 0xf000_8000 }
  predicate LooksLikeLiteral(op: Long) { op & 0xf81f_0000 == 0xf81f_0000 && op & 0xfe10_0000 == 0xf810_0000 }

  function CopyLong(src: Addr, dst: Addr, op: Long, pool: Addr): Copied {
    if LooksLikeLiteral(op) then CopyLiteralLoad32(src, dst, op, pool)
    else if LooksLikeBCondW(op) then CopyBCondW(src, dst, op, pool)
    else if IsBW(op) then CopyBW(src, dst, op, pool)
    else if IsBl(op) then CopyBl(src, dst, op, pool)
    else Copied(Halves(op), [])
  }

  function CopyInstruction(src: Addr, dst: Addr, h: Half, g: Half, pool: Addr): Copied {
    if IsLong(h) then CopyLong(src, dst, Join(h, g), pool) else CopyShort(src, dst, h, pool)
  }
}
