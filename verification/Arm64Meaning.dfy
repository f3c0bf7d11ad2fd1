/** What it means for one ARM64 instruction to be moved faithfully.
  *
  * `ExecSeq` runs an emitted sequence up to its first taken branch or its end. `Expected` is what
  * the source instruction, executed at its own address, asks of that run: continue at the end of
  * the sequence when the source continues, transfer to the same address when it transfers, with the
  * same registers and memory except that a link register points past the emitted sequence and the
  * long forms leave the target in x17.
  */
module Arm64Meaning {
  import opened Arm64
  import opened Arm64Encoding
  import opened Arm64Copy

  function Continue(o: Outcome, fallThrough: Addr): State {
    match o
    case Next(c) => State(fallThrough, c)
    case Goto(t, c) => State(t, c)
  }

  function ExecSeq(other: OtherSemantics, ws: seq<Word>, a: Addr, c: Core): State
    decreases |ws|
  {
    if ws == [] then State(a, c)
    else
      match Exec(other, Decode(ws[0]), a, c)
      case Next(c') => ExecSeq(other, ws[1..], Plus(a, 4), c')
      case Goto(t, c') => State(t, c')
  }

  // ------------------------------------------------- What is expected

  predicate Aligned(a: Addr) { a & 3 == 0 }

  predicate Links(i: Instr) { (i.B? || i.Br?) && i.link }

  /** The address the source instruction computes from its own. */
  function Target(src: Addr, i: Instr): Addr
    requires i.BCond? || i.B? || i.Cbz? || i.Tbz? || i.LdrFp?
  {
    Plus(src, i.off)
  }

  predicate NearBranch(i: Instr, src: Addr, dst: Addr)
    requires i.BCond? || i.Cbz? || i.Tbz?
  {
    InRange(Distance(dst, Target(src, i)), if i.Tbz? then 0x2000 else 0x10_0000)
  }

  /** The forms that materialise an address in x17. */
  predicate UsesX17(i: Instr, src: Addr, dst: Addr) {
    match i
    case BCond(_, _) => !NearBranch(i, src, dst) && !InRange(Distance(Plus(dst, 4), Target(src, i)), 0x800_0000)
    case Cbz(_, _, _, _) => !NearBranch(i, src, dst) && !InRange(Distance(Plus(dst, 4), Target(src, i)), 0x800_0000)
    case Tbz(_, _, _, _) => !NearBranch(i, src, dst) && !InRange(Distance(Plus(dst, 4), Target(src, i)), 0x800_0000)
    case B(_, _) => !InRange(Distance(dst, Target(src, i)), 0x800_0000)
    case LdrFp(_, _, _) => !InRange(Distance(dst, Target(src, i)), 0x20_0000)
    case _ => false
  }

  function Adjust(i: Instr, src: Addr, dst: Addr, end: Addr, c: Core): Core {
    var c1 := if Links(i) then SetX(c, LR, end) else c;
    if UsesX17(i, src, dst) then SetX(c1, X17, Target(src, i)) else c1
  }

  function Expected(other: OtherSemantics, i: Instr, src: Addr, dst: Addr, end: Addr, c: Core): State {
    match Exec(other, i, src, c)
    case Next(c') => State(end, Adjust(i, src, dst, end, c'))
    case Goto(t, c') => State(t, Adjust(i, src, dst, end, c'))
  }

  /** The hypothesis of a general-register literal load that is turned into a move: the literal still
    * has the value the relocator read. */
  predicate LiteralStable(i: Instr, src: Addr, copied: Memory, now: Memory) {
    match i
    case LdrW(_, off) => Load32(copied, Plus(src, off)) == Load32(now, Plus(src, off))
    case LdrSW(_, off) => Load32(copied, Plus(src, off)) == Load32(now, Plus(src, off))
    case LdrX(_, off) => Load64(copied, Plus(src, off)) == Load64(now, Plus(src, off))
    case _ => true
  }

  /** Exactly the instructions whose relocation is faithful. */
  predicate Relocatable(i: Instr, src: Addr, dst: Addr) {
    match i
    case Adr(rd, off) =>
      || InRange(Distance(dst, Plus(src, off)), 0x10_0000)
      || !InRange(PageDelta(Plus(src, off), dst), 0x10_0000)
      || (rd != 31 && Plus(src, off) <= 0xffff_ffff)
    case BCond(cond, _) => NearBranch(i, src, dst) || cond < 14
    case Cbz(_, _, rt, _) => UsesX17(i, src, dst) ==> rt != X17
    case Tbz(_, rt, _, _) => UsesX17(i, src, dst) ==> rt != X17
    case LdrW(rt, off) => LiteralReachable(Distance(dst, Plus(src, off))) || rt == XZR
    case LdrX(rt, off) => LiteralReachable(Distance(dst, Plus(src, off))) || rt == XZR
    case LdrSW(rt, off) => LiteralReachable(Distance(dst, Plus(src, off))) || rt == XZR
    case LdrFp(_, _, off) => LiteralReachable(Distance(dst, Plus(src, off)))
    case Prfm(op, off) => InRange(Distance(dst, Plus(src, off)), 0x20_0000) || op == XZR
    case _ => true
  }

  /** A literal is either within the 21-bit reach of the field or beyond the range test. */
  predicate LiteralReachable(delta: bv64) { InRange(delta, 0x10_0000) || !InRange(delta, 0x20_0000) }

  /** The core after some pieces: untouched until the first instruction, then `rd` holds `v`. */
  function RegisterAfter(c0: Core, rd: Reg, first: bool, v: bv64): Core {
    if first then c0 else SetX(c0, rd, v)
  }

  function Insert(v: bv64, piece: bv32, hw: bv2): bv64 { MovWideValue(MovK, v, piece as bv64, hw) }

  function PieceAt(v: bv64, hw: bv2): bv32 { Low32(v >> ((hw as bv64) << 4)) & 0xffff }

  predicate Fills(def: bv32, fill: bv64) {
    (def == 0 && fill == 0) || (def == 0xffff && fill == 0xffff_ffff_ffff_ffff)
  }

  // ------------------------------------------------- Conditional branches

  predicate Conditional(i: Instr) { i.BCond? || i.Cbz? || i.Tbz? }

  predicate Taken(i: Instr, c: Core)
    requires Conditional(i)
  {
    match i
    case BCond(cond, _) => ConditionHolds(cond, c.nzcv)
    case Cbz(sf, nz, rt, _) => IsZero(sf, GetX(c, rt)) != nz
    case Tbz(nz, rt, bit, _) => BitSet(GetX(c, rt), bit) == nz
  }

  function WithOffset(i: Instr, off: bv64): Instr
    requires Conditional(i)
  {
    match i
    case BCond(cond, _) => BCond(cond, off)
    case Cbz(sf, nz, rt, _) => Cbz(sf, nz, rt, off)
    case Tbz(nz, rt, bit, _) => Tbz(nz, rt, bit, off)
  }

  function Invert(i: Instr): Instr
    requires Conditional(i)
  {
    match i
    case BCond(cond, off) => BCond(cond ^ 1, off)
    case Cbz(sf, nz, rt, off) => Cbz(sf, !nz, rt, off)
    case Tbz(nz, rt, bit, off) => Tbz(!nz, rt, bit, off)
  }
}
