/** The part of the A64 architecture that relocated prologues depend on: a decoder for the
  * instructions whose meaning depends on their own address, for the instructions the relocator
  * emits in their place, and for the register branches; and a machine that executes them.
  * Field layouts and effects follow the Arm Architecture Reference Manual, DDI 0487, section C6.2.
  *
  * Every other instruction word is given meaning by a function that the theorems take as a
  * parameter. That function never sees the program counter, which is exactly what makes copying
  * such a word unchanged correct.
  */
module Arm64 {
  type Word = bv32
  type Addr = bv64
  type Reg = bv5
  type Memory = Addr -> bv8

  const XZR: Reg := 31
  const LR: Reg := 30
  const X17: Reg := 17

  /** A 128-bit SIMD register as four words, least significant first. */
  datatype VReg = VReg(w0: Word, w1: Word, w2: Word, w3: Word)

  /** Everything but the program counter. A register absent from its map reads as zero. */
  datatype Core = Core(x: map<nat, bv64>, sp: bv64, nzcv: bv4, v: map<nat, VReg>, mem: Memory)

  datatype State = State(pc: Addr, core: Core)

  /** One instruction either continues with the next word or transfers control. */
  datatype Outcome = Next(core: Core) | Goto(target: Addr, core: Core)

  datatype MovKind = MovN | MovZ | MovK

  datatype FpSize = S | D | Q

  datatype Instr =
    | Adr(rd: Reg, off: bv64)
    | Adrp(rd: Reg, off: bv64)
    | BCond(cond: bv4, off: bv64)
    | B(link: bool, off: bv64)
    | Cbz(sf: bool, nz: bool, rt: Reg, off: bv64)
    | Tbz(nz: bool, rt: Reg, bit: bv6, off: bv64)
    | LdrW(rt: Reg, off: bv64)
    | LdrX(rt: Reg, off: bv64)
    | LdrSW(rt: Reg, off: bv64)
    | Prfm(op: bv5, off: bv64)
    | LdrFp(size: FpSize, rt: Reg, off: bv64)
    | MovWide(sf: bool, kind: MovKind, rd: Reg, imm16: bv64, hw: bv2)
    | AddImm(sf: bool, rd: Reg, rn: Reg, imm: bv64)
    | LdrFpBase(size: FpSize, rt: Reg, rn: Reg, disp: bv64)
    | LdrXBase(rt: Reg, rn: Reg, disp: bv64)
    | Br(link: bool, rn: Reg)
    | Ret(rn: Reg)
    | Other(word: Word)

  type OtherSemantics = (Word, Core) -> Outcome

  // ---------------------------------------------------------------- Decoding

  /** Sign extension from the bit whose weight is `sign`. */
  function SignExtend(v: bv64, sign: bv64): bv64 { (v ^ sign) - sign }

  function Rd(w: Word): Reg { (w & 0x1f) as bv5 }
  function Rn(w: Word): Reg { ((w >> 5) & 0x1f) as bv5 }
  function Imm21(w: Word): bv64 {
    SignExtend(((((w >> 5) & 0x7ffff) << 2) | ((w >> 29) & 3)) as bv64, 0x10_0000)
  }
  function Offset19(w: Word): bv64 { SignExtend((((w >> 5) & 0x7ffff) << 2) as bv64, 0x10_0000) }
  function Offset26(w: Word): bv64 { SignExtend(((w & 0x3ff_ffff) << 2) as bv64, 0x800_0000) }
  function Offset14(w: Word): bv64 { SignExtend((((w >> 5) & 0x3fff) << 2) as bv64, 0x8000) }

  predicate IsPcRelAddress(w: Word) { w & 0x1f00_0000 == 0x1000_0000 }
  predicate IsBCond(w: Word) { w & 0xff00_0010 == 0x5400_0000 }
  predicate IsBranchImm(w: Word) { w & 0x7c00_0000 == 0x1400_0000 }
  predicate IsCbz(w: Word) { w & 0x7e00_0000 == 0x3400_0000 }
  predicate IsTbz(w: Word) { w & 0x7e00_0000 == 0x3600_0000 }
  predicate IsLdrLiteral(w: Word) { w & 0x3b00_0000 == 0x1800_0000 }

  function DecodeLdrLiteral(w: Word): Instr
    requires IsLdrLiteral(w)
  {
    var opc := w >> 30;
    if w & 0x400_0000 == 0 then
      if opc == 0 then LdrW(Rd(w), Offset19(w))
      else if opc == 1 then LdrX(Rd(w), Offset19(w))
      else if opc == 2 then LdrSW(Rd(w), Offset19(w))
      else Prfm(Rd(w), Offset19(w))
    else
      if opc == 0 then LdrFp(S, Rd(w), Offset19(w))
      else if opc == 1 then LdrFp(D, Rd(w), Offset19(w))
      else if opc == 2 then LdrFp(Q, Rd(w), Offset19(w))
      else Other(w)
  }

  function DecodeRest(w: Word): Instr {
    if w & 0x1f80_0000 == 0x1280_0000 && w & 0x6000_0000 != 0x2000_0000
       && !(w & 0x8000_0000 == 0 && w & 0x40_0000 != 0) then
      MovWide(w & 0x8000_0000 != 0,
              if w & 0x6000_0000 == 0 then MovN else if w & 0x6000_0000 == 0x4000_0000 then MovZ else MovK,
              Rd(w), ((w >> 5) & 0xffff) as bv64, ((w >> 21) & 3) as bv2)
    else if w & 0x7f80_0000 == 0x1100_0000 then
      AddImm(w & 0x8000_0000 != 0, Rd(w), Rn(w),
             if w & 0x40_0000 != 0 then ((w >> 10) & 0xfff) as bv64 << 12 else ((w >> 10) & 0xfff) as bv64)
    else if w & 0xffc0_0000 == 0xbd40_0000 then
      LdrFpBase(S, Rd(w), Rn(w), (((w >> 10) & 0xfff) as bv64) << 2)
    else if w & 0xffc0_0000 == 0xfd40_0000 then
      LdrFpBase(D, Rd(w), Rn(w), (((w >> 10) & 0xfff) as bv64) << 3)
    else if w & 0xffc0_0000 == 0x3dc0_0000 then
      LdrFpBase(Q, Rd(w), Rn(w), (((w >> 10) & 0xfff) as bv64) << 4)
    else if w & 0xffc0_0000 == 0xf940_0000 then
      LdrXBase(Rd(w), Rn(w), (((w >> 10) & 0xfff) as bv64) << 3)
    else if w & 0xffff_fc1f == 0xd61f_0000 then Br(false, Rn(w))
    else if w & 0xffff_fc1f == 0xd63f_0000 then Br(true, Rn(w))
    else if w & 0xffff_fc1f == 0xd65f_0000 then Ret(Rn(w))
    else Other(w)
  }

  function Decode(w: Word): Instr {
    if IsPcRelAddress(w) then
      if w & 0x8000_0000 == 0 then Adr(Rd(w), Imm21(w)) else Adrp(Rd(w), PageBase(Imm21(w)))
    else if IsBCond(w) then BCond((w & 0xf) as bv4, Offset19(w))
    else if IsBranchImm(w) then B(w & 0x8000_0000 != 0, Offset26(w))
    else if IsCbz(w) then Cbz(w & 0x8000_0000 != 0, w & 0x100_0000 != 0, Rd(w), Offset19(w))
    else if IsTbz(w) then
      Tbz(w & 0x100_0000 != 0, Rd(w), (((w >> 31) << 5) | ((w >> 19) & 0x1f)) as bv6, Offset14(w))
    else if IsLdrLiteral(w) then DecodeLdrLiteral(w)
    else DecodeRest(w)
  }

  // --------------------------------------------------------------- Execution

  /** Address arithmetic, modulo 2^64. */
  function Plus(a: Addr, off: bv64): Addr { a + off }
  function Distance(from: Addr, to: Addr): bv64 { to - from }
  function PageOf(a: Addr): Addr { a & !0xfff }
  function PageNumber(a: Addr): bv64 { a >> 12 }
  function PageBase(n: bv64): Addr { n << 12 }

  function GetX(c: Core, r: Reg): bv64 {
    if r == XZR then 0 else if r as nat in c.x then c.x[r as nat] else 0
  }

  function SetX(c: Core, r: Reg, v: bv64): Core {
    if r == XZR then c else c.(x := c.x[r as nat := v])
  }

  /** Register 31 names the stack pointer in an address or in an ADD (immediate). */
  function GetXOrSp(c: Core, r: Reg): bv64 { if r == 31 then c.sp else GetX(c, r) }

  function SetXOrSp(c: Core, r: Reg, v: bv64): Core { if r == 31 then c.(sp := v) else SetX(c, r, v) }

  function SetV(c: Core, r: Reg, v: VReg): Core { c.(v := c.v[r as nat := v]) }

  function Low32(v: bv64): Word { (v & 0xffff_ffff) as bv32 }

  function ZeroExtend32(w: Word): bv64 { w as bv64 }

  function SignExtend32(w: Word): bv64 { SignExtend(w as bv64, 0x8000_0000) }

  function Load32(m: Memory, a: Addr): Word {
    m(a) as bv32 | (m(Plus(a, 1)) as bv32 << 8)
    | (m(Plus(a, 2)) as bv32 << 16) | (m(Plus(a, 3)) as bv32 << 24)
  }

  function Load64(m: Memory, a: Addr): bv64 { Load32(m, a) as bv64 | (Load32(m, Plus(a, 4)) as bv64 << 32) }

  function LoadV(m: Memory, size: FpSize, a: Addr): VReg {
    match size
    case S => VReg(Load32(m, a), 0, 0, 0)
    case D => VReg(Load32(m, a), Load32(m, Plus(a, 4)), 0, 0)
    case Q => VReg(Load32(m, a), Load32(m, Plus(a, 4)), Load32(m, Plus(a, 8)), Load32(m, Plus(a, 12)))
  }

  /** ConditionHolds of DDI 0487: bits 3:1 pick the test, bit 0 inverts it except for 0b1111. */
  predicate ConditionHolds(cond: bv4, nzcv: bv4) {
    var n, z, c, v := nzcv & 8 != 0, nzcv & 4 != 0, nzcv & 2 != 0, nzcv & 1 != 0;
    var base :=
      if cond & 0xe == 0 then z
      else if cond & 0xe == 2 then c
      else if cond & 0xe == 4 then n
      else if cond & 0xe == 6 then v
      else if cond & 0xe == 8 then c && !z
      else if cond & 0xe == 10 then n == v
      else if cond & 0xe == 12 then n == v && !z
      else true;
    if cond & 1 == 1 && cond != 15 then !base else base
  }

  function MovWideValue(kind: MovKind, prior: bv64, imm16: bv64, hw: bv2): bv64 {
    var shift: bv64 := (hw as bv64) << 4;
    match kind
    case MovN => !(imm16 << shift)
    case MovZ => imm16 << shift
    case MovK => (prior & !(0xffff << shift)) | (imm16 << shift)
  }

  function Width(sf: bool, v: bv64): bv64 { if sf then v else v & 0xffff_ffff }

  predicate IsZero(sf: bool, v: bv64) { Width(sf, v) == 0 }

  predicate BitSet(v: bv64, bit: bv6) { (v >> (bit as bv64)) & 1 == 1 }

  function Exec(other: OtherSemantics, i: Instr, pc: Addr, c: Core): Outcome {
    match i
    case Adr(rd, off) => Next(SetX(c, rd, Plus(pc, off)))
    case Adrp(rd, off) => Next(SetX(c, rd, Plus(PageOf(pc), off)))
    case BCond(cond, off) => if ConditionHolds(cond, c.nzcv) then Goto(Plus(pc, off), c) else Next(c)
    case B(link, off) => Goto(Plus(pc, off), if link then SetX(c, LR, Plus(pc, 4)) else c)
    case Cbz(sf, nz, rt, off) =>
      if IsZero(sf, GetX(c, rt)) != nz then Goto(Plus(pc, off), c) else Next(c)
    case Tbz(nz, rt, bit, off) =>
      if BitSet(GetX(c, rt), bit) == nz then Goto(Plus(pc, off), c) else Next(c)
    case LdrW(rt, off) => Next(SetX(c, rt, ZeroExtend32(Load32(c.mem, Plus(pc, off)))))
    case LdrX(rt, off) => Next(SetX(c, rt, Load64(c.mem, Plus(pc, off))))
    case LdrSW(rt, off) => Next(SetX(c, rt, SignExtend32(Load32(c.mem, Plus(pc, off)))))
    case Prfm(_, _) => Next(c)
    case LdrFp(size, rt, off) => Next(SetV(c, rt, LoadV(c.mem, size, Plus(pc, off))))
    case MovWide(sf, kind, rd, imm16, hw) =>
      Next(SetX(c, rd, Width(sf, MovWideValue(kind, GetX(c, rd), imm16, hw))))
    case AddImm(sf, rd, rn, imm) => Next(SetXOrSp(c, rd, Width(sf, Plus(GetXOrSp(c, rn), imm))))
    case LdrFpBase(size, rt, rn, disp) => Next(SetV(c, rt, LoadV(c.mem, size, Plus(GetXOrSp(c, rn), disp))))
    case LdrXBase(rt, rn, disp) => Next(SetX(c, rt, Load64(c.mem, Plus(GetXOrSp(c, rn), disp))))
    case Br(link, rn) => Goto(GetX(c, rn), if link then SetX(c, LR, Plus(pc, 4)) else c)
    case Ret(rn) => Goto(GetX(c, rn), c)
    case Other(w) => other(w, c)
  }

  function Step(other: OtherSemantics, s: State): State {
    match Exec(other, Decode(Load32(s.core.mem, s.pc)), s.pc, s.core)
    case Next(c) => State(Plus(s.pc, 4), c)
    case Goto(a, c) => State(a, c)
  }

  function Run(other: OtherSemantics, s: State, n: nat): State
    decreases n
  {
    if n == 0 then s else Run(other, Step(other, s), n - 1)
  }

  lemma {:induction false} RunAdd(other: OtherSemantics, s: State, m: nat, n: nat)
    ensures Run(other, s, m + n) == Run(other, Run(other, s, m), n)
    decreases m
  {
    hide Step;
    if m > 0 {
      RunAdd(other, Step(other, s), m - 1, n);
    }
  }

  // ---------------------------------------------------------- Code in memory

  /** The address just past `ws` laid out from `a`. */
  function End(a: Addr, ws: seq<Word>): Addr
    decreases |ws|
  {
    if ws == [] then a else End(Plus(a, 4), ws[1..])
  }

  predicate CodeAt(m: Memory, a: Addr, ws: seq<Word>)
    decreases |ws|
  {
    ws == [] || (Load32(m, a) == ws[0] && CodeAt(m, Plus(a, 4), ws[1..]))
  }

  lemma {:induction false} CodeAtAppend(m: Memory, a: Addr, ws: seq<Word>, vs: seq<Word>)
    ensures CodeAt(m, a, ws + vs) <==> CodeAt(m, a, ws) && CodeAt(m, End(a, ws), vs)
    ensures End(a, ws + vs) == End(End(a, ws), vs)
    decreases |ws|
  {
    if ws == [] {
      assert ws + vs == vs;
    } else {
      assert (ws + vs)[1..] == ws[1..] + vs;
      CodeAtAppend(m, Plus(a, 4), ws[1..], vs);
    }
  }
}
