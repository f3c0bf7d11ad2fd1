/** The part of the T32 architecture on which moved prologues depend: the branches and the loads that
  * Detours emits, on a machine that fetches halfwords. Encodings and effects follow the Arm Architecture
  * Reference Manual for ARMv7-A and ARMv7-R, section A8.8, outside IT blocks.
  */
module ThumbMachine {
  import Arm64
  import opened ThumbEncoding

  type Reg = bv4

  const LR: Reg := 14
  const PC: Reg := 15

  type Memory = Addr -> bv8

  /** Everything but the program counter. A register absent from the map reads as zero. */
  datatype Core = Core(r: map<nat, bv32>, nzcv: bv4, mem: Memory)

  datatype State = State(pc: Addr, core: Core)

  /** To the next instruction, to a Thumb address, or to ARM code. */
  datatype Outcome = Next(core: Core) | Goto(target: Addr, core: Core) | Leave(target: Addr, core: Core)

  /** Instructions that use the program counter but are not branches or single loads. `Adr` is ADR; the two
    * ADD are those of a register and the program counter, `JumpAdd` into the latter; `Ldc` loads into a
    * coprocessor. VFP registers have the numbers from 32 on, two for a double one.
    */
  datatype PcUse =
    | Adr(rd: Reg, off: bv32)
    | AddPc(rd: Reg)
    | JumpAdd(rm: Reg)
    | MovPc(rd: Reg)
    | Bx
    | BlxLabel(off: bv32)
    | Ldrd(rt: Reg, rt2: Reg, off: bv32)
    | Vldr(v: nat, double: bool, off: bv32)
    | Ldc(op: Long, off: bv32)

  /** Narrow literal loads and preload hints are not emitted, but the code takes them for word loads; what
    * uses the program counter otherwise, the code copies.
    */
  datatype Instr =
    | Cbz(nz: bool, rn: Reg, delta: bv32)
    | BCond(cond: bv4, delta: bv32)
    | B(delta: bv32)
    | Bl(delta: bv32)
    | Blx(rm: Reg)
    | LdrLiteral(rt: Reg, off: bv32)
    | LdrNarrow(rt: Reg, off: bv32, half: bool, signed: bool)
    | Preload
    | LdrRegister(rt: Reg, rn: Reg)
    | UsesPc(use: PcUse)
    | Other(op: Long)

  type OtherSemantics = (Long, Core) -> Outcome

  // ------------------------------------------------------------------------ Decoding

  function Join(h: Half, g: Half): Long { ((h as bv32) << 16) | (g as bv32) }
  function High(w: Long): Half { (w >> 16) as bv16 }
  function Low(w: Long): Half { (w & 0xffff) as bv16 }

  predicate IsLong(h: Half) { h & 0xe000 == 0xe000 && h & 0x1800 != 0 }

  predicate IsCbz(h: Half) { h & 0xf500 == 0xb100 }
  predicate IsBCond(h: Half) { h & 0xf000 == 0xd000 && h & 0xe00 != 0xe00 }
  predicate IsB(h: Half) { h & 0xf800 == 0xe000 }
  predicate IsBlx(h: Half) { h & 0xff87 == 0x4780 && h != 0x47f8 }
  predicate IsLdrLiteral(h: Half) { h & 0xf800 == 0x4800 }
  predicate IsLdrNoOffset(h: Half) { h & 0xffc0 == 0x6800 }

  /** B<c>.W has no encoding for the conditions 14 and 15. */
  predicate IsBCondW(w: Long) { w & 0xf800_d000 == 0xf000_8000 && w & 0x380_0000 != 0x380_0000 }
  predicate IsBW(w: Long) { w & 0xf800_d000 == 0xf000_9000 }
  predicate IsBl(w: Long) { w & 0xf800_d000 == 0xf000_d000 }
  predicate IsLdrLiteralW(w: Long) { w & 0xff7f_0000 == 0xf85f_0000 }

  /** LDRB, LDRH, LDRSB and LDRSH (literal); with register 15, preload hints. */
  predicate IsNarrowLiteral(w: Long) { w & 0xfe5f_0000 == 0xf81f_0000 }
  predicate IsHalf(w: Long) { w & 0x20_0000 != 0 }
  predicate IsSigned(w: Long) { w & 0x100_0000 != 0 }
  predicate IsLdrNoOffsetW(w: Long) { w & 0xfff0_0fff == 0xf8d0_0000 }

  predicate CbzNz(h: Half) { h & 0x800 != 0 }
  function LowReg(h: Half): Reg { (h & 7) as bv4 }
  function Condition8(h: Half): bv4 { ((h >> 8) & 0xf) as bv4 }
  function Condition20(w: Long): bv4 { ((w >> 22) & 0xf) as bv4 }
  function BlxReg(h: Half): Reg { ((h >> 3) & 0xf) as bv4 }
  function BaseReg(h: Half): Reg { ((h >> 3) & 7) as bv4 }
  function LiteralReg(h: Half): Reg { ((h >> 8) & 7) as bv4 }
  function LiteralRegW(w: Long): Reg { ((w >> 12) & 0xf) as bv4 }
  function BaseRegW(w: Long): Reg { ((w >> 16) & 0xf) as bv4 }
  function Literal8(h: Half): bv32 { ((h & 0xff) as bv32) << 2 }
  function Literal12(w: Long): bv32 { w & 0xfff }
  predicate Adds(w: Long) { w & 0x80_0000 != 0 }
  function LiteralOffset(w: Long): bv32 { if Adds(w) then Literal12(w) else Negated(Literal12(w)) }
  function Negated(x: bv32): bv32 { 0 - x }

  // What uses the program counter. Encodings that the architecture leaves unpredictable are not among them.

  predicate IsAdr(h: Half) { h & 0xf800 == 0xa000 }
  predicate IsAddPc(h: Half) { h & 0xff78 == 0x4478 && h != 0x44ff }
  predicate IsJumpAdd(h: Half) { h & 0xff87 == 0x4487 && h != 0x44ff }
  predicate IsMovPc(h: Half) { h & 0xff78 == 0x4678 }
  predicate IsBxPc(h: Half) { h == 0x4778 }

  predicate IsAdrAdd(w: Long) { w & 0xfbff_8000 == 0xf20f_0000 && w & 0xf00 != 0xf00 }
  predicate IsAdrSub(w: Long) { w & 0xfbff_8000 == 0xf2af_0000 && w & 0xf00 != 0xf00 }
  predicate IsBlxLabel(w: Long) { w & 0xf800_d001 == 0xf000_c000 }
  predicate IsLdrd(w: Long) { w & 0xff7f_0000 == 0xe95f_0000 && LiteralRegW(w) != SecondReg(w) && LiteralRegW(w) != PC && SecondReg(w) != PC }

  /** LDC and LDC2; VLDR is LDC for the coprocessors 10 and 11. */
  predicate IsLdc(w: Long) { w & 0xef3f_0000 == 0xed1f_0000 }
  predicate IsVldr(w: Long) { w & 0xff3f_0e00 == 0xed1f_0a00 }
  predicate IsDouble(w: Long) { w & 0x100 != 0 }

  function HighReg(h: Half): Reg { (((h >> 4) & 8) | (h & 7)) as bv4 }
  function SecondReg(w: Long): Reg { ((w >> 8) & 0xf) as bv4 }
  function Immediate12(w: Long): bv32 { ((w >> 15) & 0x800) | ((w >> 4) & 0x700) | (w & 0xff) }
  function LiteralWords(w: Long): bv32 { if Adds(w) then (w & 0xff) << 2 else Negated((w & 0xff) << 2) }

  function VfpReg(w: Long): nat {
    var vd, d := ((w >> 12) & 0xf) as nat, ((w >> 22) & 1) as nat;
    if IsDouble(w) then 32 + 2 * (16 * d + vd) else 32 + 2 * vd + d
  }

  predicate UsesPcShort(h: Half) { IsAdr(h) || IsAddPc(h) || IsJumpAdd(h) || IsMovPc(h) || IsBxPc(h) }

  function ShortUse(h: Half): PcUse {
    if IsAdr(h) then Adr(LiteralReg(h), Literal8(h))
    else if IsAddPc(h) then AddPc(HighReg(h))
    else if IsJumpAdd(h) then JumpAdd(BlxReg(h))
    else if IsMovPc(h) then MovPc(HighReg(h))
    else Bx
  }

  predicate UsesPcLong(w: Long) { IsAdrAdd(w) || IsAdrSub(w) || IsBlxLabel(w) || IsLdrd(w) || IsLdc(w) }

  function LongUse(w: Long): PcUse {
    if IsAdrAdd(w) then Adr(SecondReg(w), Immediate12(w))
    else if IsAdrSub(w) then Adr(SecondReg(w), Negated(Immediate12(w)))
    else if IsBlxLabel(w) then BlxLabel(DecodeBranch24(w))
    else if IsLdrd(w) then Ldrd(LiteralRegW(w), SecondReg(w), LiteralWords(w))
    else if IsVldr(w) then Vldr(VfpReg(w), IsDouble(w), LiteralWords(w))
    else Ldc(w, LiteralWords(w))
  }

  /** The instruction whose first halfword is `h`, followed by `g`. */
  function Decode(h: Half, g: Half): Instr {
    if IsLong(h) then DecodeLong(Join(h, g)) else DecodeShort(h)
  }

  function DecodeShort(h: Half): Instr {
    if IsCbz(h) then Cbz(CbzNz(h), LowReg(h), DecodeBranch5(h))
    else if IsBCond(h) then BCond(Condition8(h), DecodeBranch8(h))
    else if IsB(h) then B(DecodeBranch11(h))
    else if IsBlx(h) then Blx(BlxReg(h))
    else if IsLdrLiteral(h) then LdrLiteral(LiteralReg(h), Literal8(h))
    else if IsLdrNoOffset(h) then LdrRegister(LowReg(h), BaseReg(h))
    else if UsesPcShort(h) then UsesPc(ShortUse(h))
    else Other(h as bv32)
  }

  function DecodeLong(w: Long): Instr {
    if IsBCondW(w) then BCond(Condition20(w), DecodeBranch20(w))
    else if IsBW(w) then B(DecodeBranch24(w))
    else if IsBl(w) then Bl(DecodeBranch24(w))
    else if IsLdrLiteralW(w) then LdrLiteral(LiteralRegW(w), LiteralOffset(w))
    else if IsNarrowLiteral(w) then
      if LiteralRegW(w) == PC then Preload else LdrNarrow(LiteralRegW(w), LiteralOffset(w), IsHalf(w), IsSigned(w))
    else if IsLdrNoOffsetW(w) then LdrRegister(LiteralRegW(w), BaseRegW(w))
    else if UsesPcLong(w) then UsesPc(LongUse(w))
    else Other(w)
  }

  // ----------------------------------------------------------------------- Execution

  function Plus(a: Addr, off: bv32): Addr { a + off }
  function Minus(to: Addr, from: Addr): bv32 { to - from }
  function Align4(a: Addr): Addr { a & 0xffff_fffc }
  function WithBit0(a: Addr): Addr { a | 1 }
  function WithoutBit0(a: Addr): Addr { a & 0xffff_fffe }
  predicate Bit0(a: Addr) { a & 1 != 0 }
  predicate Even(a: Addr) { a & 1 == 0 }

  function GetR(c: Core, r: Reg): bv32 { if r as nat in c.r then c.r[r as nat] else 0 }
  function SetR(c: Core, r: Reg, v: bv32): Core { c.(r := c.r[r as nat := v]) }

  function Pair(lo: bv8, hi: bv8): Half { (lo as bv16) | ((hi as bv16) << 8) }

  /** A halfword, least significant byte first. */
  function Fetch(m: Memory, a: Addr): Half { Pair(m(a), m(Plus(a, 1))) }

  function Load(m: Memory, a: Addr): bv32 { Join(Fetch(m, Plus(a, 2)), Fetch(m, a)) }

  function ExtendByte(b: bv8, signed: bool): bv32 { if signed && b & 0x80 != 0 then (b as bv32) | 0xffff_ff00 else b as bv32 }

  function ExtendHalf(h: Half, signed: bool): bv32 { if signed && h & 0x8000 != 0 then (h as bv32) | 0xffff_0000 else h as bv32 }

  function LoadNarrow(m: Memory, a: Addr, half: bool, signed: bool): bv32 {
    if half then ExtendHalf(Fetch(m, a), signed) else ExtendByte(m(a), signed)
  }

  predicate Holds(cond: bv4, nzcv: bv4) { Arm64.ConditionHolds(cond, nzcv) }

  /** The program counter that an instruction reads. */
  function ReadPc(pc: Addr): Addr { Plus(pc, 4) }

  function BranchTarget(pc: Addr, delta: bv32): Addr { Plus(ReadPc(pc), delta) }

  function LiteralAddress(pc: Addr, off: bv32): Addr { ((pc + 4) & 0xffff_fffc) + off }

  /** A branch to a value that selects the instruction set by its bit 0. */
  function Exchange(v: bv32, c: Core): Outcome { if Bit0(v) then Goto(WithoutBit0(v), c) else Leave(v, c) }

  function Loaded(rt: Reg, v: bv32, c: Core): Outcome {
    if rt == PC then Exchange(v, c) else Next(SetR(c, rt, v))
  }

  /** ADR and loads align the program counter to a word. */
  predicate AlignsPc(u: PcUse) { u.Adr? || u.BlxLabel? || u.Ldrd? || u.Vldr? || u.Ldc? }

  function PcValue(u: PcUse, pc: Addr): Addr { if AlignsPc(u) then Align4(ReadPc(pc)) else ReadPc(pc) }

  function SetRegister(c: Core, r: nat, v: bv32): Core { c.(r := c.r[r := v]) }

  /** An instruction that uses the program counter, given what it reads there. A coprocessor is given the
    * address of its words as register 15, which no other instruction finds there.
    */
  function UsePc(other: OtherSemantics, u: PcUse, v: Addr, pc: Addr, c: Core): Outcome {
    match u
    case Adr(rd, off) => Next(SetR(c, rd, Plus(v, off)))
    case AddPc(rd) => Next(SetR(c, rd, Plus(v, GetR(c, rd))))
    case JumpAdd(rm) => Goto(WithoutBit0(Plus(v, GetR(c, rm))), c)
    case MovPc(rd) => if rd == PC then Goto(v, c) else Next(SetR(c, rd, v))
    case Bx => Leave(v, c)
    case BlxLabel(off) => Leave(Plus(v, off), SetR(c, LR, WithBit0(Plus(pc, 4))))
    case Ldrd(rt, rt2, off) => Next(SetR(SetR(c, rt, Load(c.mem, Plus(v, off))), rt2, Load(c.mem, Plus(Plus(v, off), 4))))
    case Vldr(r, double, off) =>
      var c1 := SetRegister(c, r, Load(c.mem, Plus(v, off)));
      Next(if double then SetRegister(c1, r + 1, Load(c.mem, Plus(Plus(v, off), 4))) else c1)
    case Ldc(op, off) => other(op, SetR(c, PC, Plus(v, off)))
  }

  function Exec(other: OtherSemantics, i: Instr, pc: Addr, c: Core): Outcome {
    match i
    case Cbz(nz, rn, delta) => if (GetR(c, rn) == 0) != nz then Goto(BranchTarget(pc, delta), c) else Next(c)
    case BCond(cond, delta) => if Holds(cond, c.nzcv) then Goto(BranchTarget(pc, delta), c) else Next(c)
    case B(delta) => Goto(BranchTarget(pc, delta), c)
    case Bl(delta) => Goto(BranchTarget(pc, delta), SetR(c, LR, WithBit0(Plus(pc, 4))))
    case Blx(rm) => Exchange(GetR(c, rm), SetR(c, LR, WithBit0(Plus(pc, 2))))
    case LdrLiteral(rt, off) => Loaded(rt, Load(c.mem, LiteralAddress(pc, off)), c)
    case LdrNarrow(rt, off, half, signed) => Next(SetR(c, rt, LoadNarrow(c.mem, LiteralAddress(pc, off), half, signed)))
    case Preload => Next(c)
    case LdrRegister(rt, rn) => Loaded(rt, Load(c.mem, GetR(c, rn)), c)
    case UsesPc(u) => UsePc(other, u, PcValue(u, pc), pc, c)
    case Other(op) => other(op, c)
  }

  /** The machine stops when it leaves Thumb code. */
  datatype Machine = Thumb(state: State) | Arm(state: State)

  /** Size of the instruction that begins with a halfword. */
  function SizeOf(h: Half): bv32 { if IsLong(h) then 4 else 2 }

  function After(o: Outcome, pc: Addr, size: bv32): Machine {
    match o
    case Next(c) => Thumb(State(Plus(pc, size), c))
    case Goto(t, c) => Thumb(State(t, c))
    case Leave(t, c) => Arm(State(t, c))
  }

  function Step(other: OtherSemantics, s: State): Machine {
    After(Exec(other, Decode(Fetch(s.core.mem, s.pc), Fetch(s.core.mem, Plus(s.pc, 2))), s.pc, s.core), s.pc, SizeOf(Fetch(s.core.mem, s.pc)))
  }

  function Run(other: OtherSemantics, s: State, n: nat): Machine
    decreases n
  {
    if n == 0 then Thumb(s)
    else
      match Step(other, s)
      case Thumb(t) => Run(other, t, n - 1)
      case Arm(t) => Arm(t)
  }

  // ------------------------------------------------------------------ Code in memory

  predicate CodeAt(m: Memory, a: Addr, code: seq<Half>)
    decreases |code|
  {
    code == [] || (Fetch(m, a) == code[0] && CodeAt(m, Plus(a, 2), code[1..]))
  }

  function End(a: Addr, code: seq<Half>): Addr
    decreases |code|
  {
    if code == [] then a else End(Plus(a, 2), code[1..])
  }
}
