/** The ARM64 instruction encodings of `CDetourDis` (detours/src/disasm.cpp:3611-3896): each
  * `Assemble` packs bit fields exactly as the C unions do, each `Imm` sign-extends by the same pair
  * of shifts. The lemmas relate both directions to the architecture's own decoder.
  */
module Arm64Encoding {
  import opened Arm64

  function Field(v: bv32, mask: bv32, at: bv32): bv32
    requires at < 32
  { (v & mask) << at }

  /** `(LONG)x >> n`, an arithmetic shift. */
  function Sar32(x: bv32, n: bv32): bv32
    requires n < 32
  {
    ((x ^ 0x8000_0000) >> n) - (0x8000_0000 >> n)
  }

  function Adr19Imm(w: Word): bv32 { Sar32(((((w >> 5) & 0x7ffff) << 2) | ((w >> 29) & 3)) << 11, 11) }
  function Imm19(w: Word): bv32 { Sar32(((w >> 5) & 0x7ffff) << 13, 11) }
  function Imm26(w: Word): bv32 { Sar32((w & 0x3ff_ffff) << 6, 4) }
  function Imm14(w: Word): bv32 { Sar32(((w >> 5) & 0x3fff) << 18, 16) }

  function AssembleAdr19(kind: bv32, rd: Reg, delta: bv32): Word {
    rd as bv32 | Field(delta >> 2, 0x7ffff, 5) | Field(0x10, 0x1f, 24) | Field(delta, 3, 29) | Field(kind, 1, 31)
  }

  function AssembleAddImm12(size: bv32, rd: Reg, rn: Reg, imm: bv32, shift: bv32): Word {
    rd as bv32 | (rn as bv32 << 5) | Field(imm, 0xfff, 10) | Field(shift, 3, 22) | Field(0x11, 0x7f, 24)
    | Field(size, 1, 31)
  }

  function AssembleBcc(cond: bv32, delta: bv32): Word {
    (cond & 0xf) | Field(delta >> 2, 0x7ffff, 5) | Field(0x54, 0xff, 24)
  }

  function AssembleBranch26(link: bool, delta: bv32): Word {
    ((delta >> 2) & 0x3ff_ffff) | Field(5, 0x1f, 26) | (if link then 0x8000_0000 else 0)
  }

  function AssembleBr(rn: Reg, link: bool): Word {
    (rn as bv32 << 5) | Field(0x3587c0, 0x3f_ffff, 10) | (if link then 0x20_0000 else 0)
  }

  function AssembleCbz19(size: bv32, nz: bv32, rt: Reg, delta: bv32): Word {
    rt as bv32 | Field(delta >> 2, 0x7ffff, 5) | Field(nz, 1, 24) | Field(0x1a, 0x3f, 25) | Field(size, 1, 31)
  }

  function AssembleTbz14(size: bv32, nz: bv32, rt: Reg, bit: bv32, delta: bv32): Word {
    rt as bv32 | Field(delta >> 2, 0x3fff, 5) | Field(bit, 0x1f, 19) | Field(nz, 1, 24) | Field(0x1b, 0x3f, 25)
    | Field(size, 1, 31)
  }

  function AssembleLdrLit19(size: bv32, fpNeon: bv32, rt: Reg, delta: bv32): Word {
    rt as bv32 | Field(delta >> 2, 0x7ffff, 5) | Field(fpNeon, 1, 26) | Field(3, 7, 27) | Field(size, 3, 30)
  }

  function AssembleLdrFpNeonImm9(size: bv32, rt: Reg, rn: Reg, imm: bv32): Word {
    rt as bv32 | (rn as bv32 << 5) | Field(imm, 0xfff, 10) | Field(1, 1, 22) | Field(size >> 2, 1, 23)
    | Field(0x3d, 0x3f, 24) | Field(size, 3, 30)
  }

  function AssembleMov16(size: bv32, kind: bv32, rd: Reg, imm: bv32, shift: bv32): Word {
    rd as bv32 | Field(imm, 0xffff, 5) | Field(shift, 3, 21) | Field(0x25, 0x3f, 23) | Field(kind, 3, 29)
    | Field(size, 1, 31)
  }

  /** `delta >= -half && delta < half` on LONG64. */
  predicate InRange(delta: bv64, half: bv64) {
    SignedLess(delta, half) && !SignedLess(delta, -half)
  }

  predicate SignedLess(a: bv64, b: bv64) { a ^ 0x8000_0000_0000_0000 < b ^ 0x8000_0000_0000_0000 }

  function MovType(kind: MovKind): bv32 {
    match kind case MovN => 0 case MovZ => 2 case MovK => 3
  }
}
