/** The condition `Relocatable` is exact: for every instruction outside it there is a machine state
  * in which the relocated words do something else. */
module Arm64Exactness {
  import opened Arm64
  import opened Arm64Encoding
  import opened Arm64Copy
  import opened Arm64Meaning
  import opened Arm64Bits
  import opened Arm64Relocation
  import opened Arm64Simulation

  /** A core with the given memory and nothing else set. */
  function Blank(mem: Memory): Core { Core(map[], 0, 0, map[], mem) }

  // -------------------------------------------------------- ADR, ADRP + ADD

  lemma AdrFails(other: OtherSemantics, rd: Reg, off: bv64, src: Addr, dst: Addr, mem: Memory) returns (c: Core)
    requires !InRange(Distance(dst, Plus(src, off)), 0x10_0000)
    requires InRange(PageDelta(Plus(src, off), dst), 0x10_0000)
    requires rd == 31 || Plus(src, off) > 0xffff_ffff
    ensures c.mem == mem
    ensures var target := Plus(src, off);
            var ws := [AssembleAdr19(1, rd, Low32(PageDelta(target, dst))),
                       AssembleAddImm12(0, rd, rd, Low12(target), 0)];
            ExecSeq(other, ws, dst, c).core != SetX(c, rd, target)
  {
    hide Decode, Exec, Plus, PageOf, Low12, Low32, AssembleAddImm12, AssembleAdr19, PageDelta, ExecSeq, InRange, Width,
         Distance;
    var target := Plus(src, off);
    var w1 := AssembleAdr19(1, rd, Low32(PageDelta(target, dst)));
    var w2 := AssembleAddImm12(0, rd, rd, Low12(target), 0);
    c := Blank(mem).(sp := 0x1_0000_0000);
    AdrpExec(other, rd, dst, target, c);
    assert [w1, w2] == [w1] + [w2];
    ExecSeqStep(other, w1, [w2], dst, c);
    var c1 := SetX(c, rd, PageOf(target));
    ExecSeqOne(other, w2, Plus(dst, 4), c1);
    AddLowResult(other, rd, Plus(dst, 4), target, c1);
    Low12Small(target);
    AddClobbersSp(Low12(target));
    if rd != 31 {
      var v := Width(false, Plus(GetXOrSp(c1, rd), Low12(target) as bv64));
      WidthTruncates(Plus(GetXOrSp(c1, rd), Low12(target) as bv64), target);
      SetXTwice(c, rd, PageOf(target), v);
      SetXDiffers(c, rd, v, target);
    }
  }

  lemma AddLowResult(other: OtherSemantics, rd: Reg, pc: Addr, target: Addr, c: Core)
    ensures Exec(other, Decode(AssembleAddImm12(0, rd, rd, Low12(target), 0)), pc, c)
         == Next(SetXOrSp(c, rd, Width(false, Plus(GetXOrSp(c, rd), Low12(target) as bv64))))
  {
    hide Decode, Plus, Low12, AssembleAddImm12, Width;
    Low12Small(target);
    AddDecodes(rd, Low12(target));
  }

  lemma SetXDiffers(c: Core, rd: Reg, v: bv64, w: bv64)
    requires rd != XZR && v != w
    ensures SetX(c, rd, v) != SetX(c, rd, w)
  {
    assert c.x[rd as nat := v][rd as nat] == v;
    assert c.x[rd as nat := w][rd as nat] == w;
  }

  // ------------------------------------------------------ Conditional branches

  /** Where a short sequence ends is still near its start. */
  lemma EndIsNear(dst: Addr, ws: seq<Word>)
    requires |ws| <= 6
    ensures InRange(Distance(dst, End(dst, ws)), 0x2000)
  {
    hide *;
    var d := EndOffset(dst, ws);
    PlusThenDistance(dst, d);
    InRangeSmall(d);
  }

  lemma InRangeSmall(d: bv64)
    requires d <= 24
    ensures InRange(d, 0x2000)
  {}

  /** B.AL and B.NV: the inverted condition is always true too, so the target is never reached. */
  lemma AlwaysFails(other: OtherSemantics, i: Instr, skip: Word, rest: seq<Word>, dst: Addr, end: Addr, c: Core)
    requires i.BCond? && i.cond >= 14 && Decode(skip) == WithOffset(Invert(i), 8)
    ensures ExecSeq(other, [skip] + rest, dst, c) == State(Plus(dst, 8), c)
  {
    hide Exec, Decode, Plus, ConditionHolds, ExecSeq;
    ConditionAlways(i.cond, c.nzcv);
    ExecConditional(other, WithOffset(Invert(i), 8), dst, c);
    ExecSeqStep(other, skip, rest, dst, c);
  }

  lemma BccFails(other: OtherSemantics, i: Instr, cond: (bool, bv32) -> Word, src: Addr, dst: Addr, target: Addr, c: Core)
    requires i.BCond? && i.cond >= 14 && target == Target(src, i)
    requires Decode(cond(true, 8)) == WithOffset(Invert(i), 8)
    requires !InRange(Distance(dst, target), 0x10_0000)
    ensures var ws := CopyConditional(cond, 0x10_0000, target, dst);
            ExecSeq(other, ws, dst, c) != Expected(other, i, src, dst, End(dst, ws), c)
  {
    hide Exec, Decode, Plus, Distance, ConditionHolds, ExecSeq, Target, InRange, MovImmediate, AssembleBr,
         AssembleBranch26, Low32, SetX, UsesX17, Expected;
    var ws := CopyConditional(cond, 0x10_0000, target, dst);
    ConditionAlways(i.cond, c.nzcv);
    ExpectedConditional(other, i, src, dst, End(dst, ws), c);
    ConditionalLength(cond, 0x10_0000, target, dst);
    EndIsNear(dst, ws);
    NarrowerRange(Distance(dst, End(dst, ws)));
    if InRange(Distance(Plus(dst, 4), target), 0x800_0000) {
      var jump := AssembleBranch26(false, Low32(Distance(Plus(dst, 4), target)));
      assert ws == [cond(true, 8)] + [jump];
      AlwaysFails(other, i, cond(true, 8), [jump], dst, End(dst, ws), c);
      EndOfTwo(dst, cond(true, 8), jump);
    } else {
      var mov, br := MovImmediate(X17, target), AssembleBr(X17, false);
      assert [cond(true, 8), br] == [cond(true, 8)] + [br];
      MovImmediateRuns(other, X17, target, [cond(true, 8), br], dst, c);
      AlwaysFails(other, i, cond(true, 8), [br], End(dst, mov), End(dst, ws), SetX(c, X17, target));
      EndOfTwo(End(dst, mov), cond(true, 8), br);
    }
  }

  lemma EndOfTwo(a: Addr, w: Word, v: Word)
    ensures End(a, [w, v]) == Plus(a, 8)
  {
    hide Plus;
    Add44(a);
    assert [w, v][1..] == [v];
    assert End(Plus(a, 4), [v]) == Plus(Plus(a, 4), 4);
  }

  /** A test of x17 sees the branch target that the long form has put there. */
  lemma TestOfX17Fails(other: OtherSemantics, i: Instr, cond: (bool, bv32) -> Word, src: Addr, dst: Addr, target: Addr,
                       near: bv64, mem: Memory) returns (c: Core)
    requires (i.Cbz? || i.Tbz?) && i.rt == X17 && target == Target(src, i) && UsesX17(i, src, dst)
    requires near == if i.Tbz? then 0x2000 else 0x10_0000
    requires Decode(cond(true, 8)) == WithOffset(Invert(i), 8)
    ensures c.mem == mem
    ensures var ws := CopyConditional(cond, near, target, dst);
            ExecSeq(other, ws, dst, c) != Expected(other, i, src, dst, End(dst, ws), c)
  {
    hide Exec, Decode, Plus, Distance, ExecSeq, Target, InRange, MovImmediate, AssembleBr, SetX, UsesX17, Expected, Taken;
    var ws := CopyConditional(cond, near, target, dst);
    c := OppositeX17(i, target, mem);
    ConditionalForms(i, src, dst, target, near);
    ExpectedConditional(other, i, src, dst, End(dst, ws), c);
    ConditionalLength(cond, near, target, dst);
    EndIsNear(dst, ws);
    NarrowerRange(Distance(dst, End(dst, ws)));
    var mov, br := MovImmediate(X17, target), AssembleBr(X17, false);
    MovImmediateRuns(other, X17, target, [cond(true, 8), br], dst, c);
    BrX17(other, Plus(End(dst, mov), 4), c, target);
    BranchOver(other, i, cond(true, 8), br, End(dst, mov), SetX(c, X17, target), target);
  }

  lemma OppositeX17(i: Instr, target: Addr, mem: Memory) returns (c: Core)
    requires (i.Cbz? || i.Tbz?) && i.rt == X17
    ensures c.mem == mem && Taken(i, c) != Taken(i, SetX(c, X17, target))
  {
    hide IsZero, BitSet;
    var v := if i.Tbz? then !target else if IsZero(i.sf, target) then 1 else 0;
    c := Core(map[17 := v], 0, 0, map[], mem);
    SetXTwice(c, X17, target, target);
    if i.Tbz? { BitFlips(target, i.bit); } else { ZeroTestFlips(i.sf, target); }
  }

  // ------------------------------------------------------------ Literal loads

  /** The copied memory with the byte at `wrong` made different from the one at `target`. */
  function Disturbed(copied: Memory, target: Addr, wrong: Addr): Memory {
    (a: Addr) => if a == wrong then copied(target) ^ 1 else copied(a)
  }

  function WrongAddress(dst: Addr, target: Addr): Addr {
    Plus(dst, SignExtend(Distance(dst, target) & 0x1f_ffff, 0x10_0000))
  }

  /** The wrapped displacement is off by 2 MB, far from every byte of the literal. */
  lemma WrappedFar(dst: Addr, target: Addr, k: bv64)
    requires InRange(Distance(dst, target), 0x20_0000) && !InRange(Distance(dst, target), 0x10_0000) && k <= 15
    ensures WrongAddress(dst, target) != Plus(target, k)
  {
    hide *;
    var delta := Distance(dst, target);
    WrappedOffset(delta, k);
    if WrongAddress(dst, target) == Plus(target, k) {
      WrongIs(dst, target);
      AddBack(dst, target);
      PlusAssociates(dst, delta, k);
      PlusThenDistance(dst, SignExtend(delta & 0x1f_ffff, 0x10_0000));
      PlusThenDistance(dst, Plus(delta, k));
    }
  }

  lemma WrongIs(dst: Addr, target: Addr)
    ensures WrongAddress(dst, target) == Plus(dst, SignExtend(Distance(dst, target) & 0x1f_ffff, 0x10_0000))
  {}

  lemma WrapsUp(delta: bv64)
    requires InRange(delta, 0x20_0000) && !InRange(delta, 0x10_0000) && delta & 0x8000_0000_0000_0000 != 0
    ensures SignExtend(delta & 0x1f_ffff, 0x10_0000) == delta + 0x20_0000
  {}

  lemma WrapsDown(delta: bv64)
    requires InRange(delta, 0x20_0000) && !InRange(delta, 0x10_0000) && delta & 0x8000_0000_0000_0000 == 0
    ensures SignExtend(delta & 0x1f_ffff, 0x10_0000) == delta - 0x20_0000
  {}

  lemma NotUp(delta: bv64, k: bv64)
    requires k <= 15
    ensures delta + 0x20_0000 != delta + k
  {}

  lemma NotDown(delta: bv64, k: bv64)
    requires k <= 15
    ensures delta - 0x20_0000 != delta + k
  {}

  lemma WrappedOffset(delta: bv64, k: bv64)
    requires InRange(delta, 0x20_0000) && !InRange(delta, 0x10_0000) && k <= 15
    ensures SignExtend(delta & 0x1f_ffff, 0x10_0000) != Plus(delta, k)
  {
    hide *;
    PlusIs(delta, k);
    if delta & 0x8000_0000_0000_0000 == 0 {
      WrapsDown(delta);
      NotDown(delta, k);
    } else {
      WrapsUp(delta);
      NotUp(delta, k);
    }
  }

  lemma LowByteMatters(m: Memory, a: Addr, b: Addr)
    requires m(a) != m(b)
    ensures Load32(m, a) != Load32(m, b)
  {
    LowByte(m, a);
    LowByte(m, b);
  }

  lemma LowByte(m: Memory, a: Addr)
    ensures Load32(m, a) & 0xff == m(a) as bv32
  {
    hide Plus;
    LowByteOf(m(a), m(Plus(a, 1)), m(Plus(a, 2)), m(Plus(a, 3)));
  }

  lemma LowByteOf(b0: bv8, b1: bv8, b2: bv8, b3: bv8)
    ensures (b0 as bv32 | (b1 as bv32 << 8) | (b2 as bv32 << 16) | (b3 as bv32 << 24)) & 0xff == b0 as bv32
  {}

  lemma LowWord(m: Memory, a: Addr)
    ensures Load64(m, a) & 0xffff_ffff == Load32(m, a) as bv64
  {
    hide Load32, Plus;
    LowWordOf(Load32(m, a), Load32(m, Plus(a, 4)));
  }

  lemma LowWordOf(lo: bv32, hi: bv32)
    ensures (lo as bv64 | (hi as bv64 << 32)) & 0xffff_ffff == lo as bv64
  {}

  lemma WidenInjective(a: bv32, b: bv32)
    requires a != b
    ensures a as bv64 != b as bv64
  {}

  lemma SignExtendInjective(a: bv32, b: bv32)
    requires a != b
    ensures SignExtend32(a) != SignExtend32(b)
  {}

  lemma LoadAgrees(m: Memory, m': Memory, a: Addr)
    requires m(a) == m'(a)
    requires m(Plus(a, 1)) == m'(Plus(a, 1)) && m(Plus(a, 2)) == m'(Plus(a, 2)) && m(Plus(a, 3)) == m'(Plus(a, 3))
    ensures Load32(m, a) == Load32(m', a)
  {
    hide Plus;
  }

  lemma ValuesDiffer(m: Memory, size: bv32, a: Addr, b: Addr)
    requires size <= 2 && m(a) != m(b)
    ensures LiteralValue(m, size, a) != LiteralValue(m, size, b)
  {
    hide Load32, Load64, SignExtend32;
    LowByteMatters(m, a, b);
    WidenInjective(Load32(m, a), Load32(m, b));
    SignExtendInjective(Load32(m, a), Load32(m, b));
    LowWord(m, a);
    LowWord(m, b);
  }

  lemma VectorsDiffer(c: Core, size: FpSize, rt: Reg, a: Addr, b: Addr)
    requires c.mem(a) != c.mem(b)
    ensures SetV(c, rt, LoadV(c.mem, size, a)) != SetV(c, rt, LoadV(c.mem, size, b))
  {
    hide Load32, Plus;
    LowByteMatters(c.mem, a, b);
    assert c.v[rt as nat := LoadV(c.mem, size, a)][rt as nat].w0 == Load32(c.mem, a);
    assert c.v[rt as nat := LoadV(c.mem, size, b)][rt as nat].w0 == Load32(c.mem, b);
  }

  /** Two addresses whose first bytes differ give different results for every literal load. */
  lemma LiteralDiffers(other: OtherSemantics, size: bv32, fpNeon: bv32, rt: Reg, off: bv64, off': bv64, pc: Addr,
                       pc': Addr, c: Core)
    requires size <= 2 && fpNeon <= 1 && (fpNeon == 0 ==> rt != XZR)
    requires c.mem(Plus(pc, off)) != c.mem(Plus(pc', off'))
    ensures Exec(other, LiteralInstr(size, fpNeon, rt, off), pc, c)
         != Exec(other, LiteralInstr(size, fpNeon, rt, off'), pc', c)
  {
    hide Plus, Exec, LiteralInstr, LiteralValue, LoadV, SetV, SetX, FpSizeOf;
    var a, b := Plus(pc, off), Plus(pc', off');
    LiteralCases(size, fpNeon);
    if fpNeon == 1 {
      FpLiteralLoads(other, size, rt, off, pc, c);
      FpLiteralLoads(other, size, rt, off', pc', c);
      VectorsDiffer(c, FpSizeOf(size), rt, a, b);
    } else {
      LiteralLoads(other, size, rt, off, pc, c);
      LiteralLoads(other, size, rt, off', pc', c);
      ValuesDiffer(c.mem, size, a, b);
      SetXDiffers(c, rt, LiteralValue(c.mem, size, a), LiteralValue(c.mem, size, b));
    }
  }

  lemma DisturbedAt(copied: Memory, target: Addr, wrong: Addr, a: Addr)
    requires wrong != a
    ensures Disturbed(copied, target, wrong)(a) == copied(a)
  {}

  lemma DisturbedAgrees(copied: Memory, target: Addr, wrong: Addr, a: Addr)
    requires wrong != a && wrong != Plus(a, 1) && wrong != Plus(a, 2) && wrong != Plus(a, 3)
    ensures Load32(Disturbed(copied, target, wrong), a) == Load32(copied, a)
  {
    hide *;
    DisturbedAt(copied, target, wrong, a);
    DisturbedAt(copied, target, wrong, Plus(a, 1));
    DisturbedAt(copied, target, wrong, Plus(a, 2));
    DisturbedAt(copied, target, wrong, Plus(a, 3));
    LoadAgrees(Disturbed(copied, target, wrong), copied, a);
  }

  lemma LowHalfKept(copied: Memory, dst: Addr, target: Addr)
    requires InRange(Distance(dst, target), 0x20_0000) && !InRange(Distance(dst, target), 0x10_0000)
    ensures Load32(Disturbed(copied, target, WrongAddress(dst, target)), target) == Load32(copied, target)
  {
    hide *;
    PlusZero(target);
    WrappedFar(dst, target, 0);
    WrappedFar(dst, target, 1);
    WrappedFar(dst, target, 2);
    WrappedFar(dst, target, 3);
    DisturbedAgrees(copied, target, WrongAddress(dst, target), target);
  }

  lemma HighHalfKept(copied: Memory, dst: Addr, target: Addr)
    requires InRange(Distance(dst, target), 0x20_0000) && !InRange(Distance(dst, target), 0x10_0000)
    ensures Load32(Disturbed(copied, target, WrongAddress(dst, target)), Plus(target, 4)) == Load32(copied, Plus(target, 4))
  {
    hide *;
    WrappedFar(dst, target, 4);
    WrappedFar(dst, target, 5);
    WrappedFar(dst, target, 6);
    WrappedFar(dst, target, 7);
    FourPlus(target);
    DisturbedAgrees(copied, target, WrongAddress(dst, target), Plus(target, 4));
  }

  lemma DisturbedKeepsLiteral(copied: Memory, dst: Addr, target: Addr)
    requires InRange(Distance(dst, target), 0x20_0000) && !InRange(Distance(dst, target), 0x10_0000)
    ensures var m := Disturbed(copied, target, WrongAddress(dst, target));
            Load32(m, target) == Load32(copied, target) && Load64(m, target) == Load64(copied, target)
  {
    hide Plus, Load32, InRange, Distance, WrongAddress, Disturbed;
    LowHalfKept(copied, dst, target);
    HighHalfKept(copied, dst, target);
  }

  lemma FourPlus(a: Addr)
    ensures Plus(Plus(a, 4), 1) == Plus(a, 5) && Plus(Plus(a, 4), 2) == Plus(a, 6) && Plus(Plus(a, 4), 3) == Plus(a, 7)
  {
    hide Plus;
    PlusAssociates(a, 4, 1);
    PlusAssociates(a, 4, 2);
    PlusAssociates(a, 4, 3);
    SmallSums();
  }

  lemma SmallSums()
    ensures Plus(4, 1) == 5 && Plus(4, 2) == 6 && Plus(4, 3) == 7
  {}

  lemma FlippedByte(copied: Memory, target: Addr, wrong: Addr)
    requires wrong != target
    ensures Disturbed(copied, target, wrong)(wrong) != Disturbed(copied, target, wrong)(target)
  {
    XorOne(copied(target));
  }

  lemma XorOne(b: bv8)
    ensures b ^ 1 != b
  {}

  /** Between 1 MB and 2 MB the re-encoded load wraps round and reads somewhere else. */
  lemma NearLiteralFails(other: OtherSemantics, size: bv32, fpNeon: bv32, rt: Reg, src: Addr, dst: Addr, off: bv64,
                         copied: Memory) returns (c: Core)
    requires size <= 2 && fpNeon <= 1 && (fpNeon == 0 ==> rt != XZR)
    requires Aligned(dst) && Aligned(Plus(src, off))
    requires var d := Distance(dst, Plus(src, off)); InRange(d, 0x20_0000) && !InRange(d, 0x10_0000)
    ensures LiteralStable(LiteralInstr(size, fpNeon, rt, off), src, copied, c.mem)
    ensures var i, ws := LiteralInstr(size, fpNeon, rt, off), LiteralWords(size, fpNeon, rt, dst, Plus(src, off), copied);
            ExecSeq(other, ws, dst, c) != Expected(other, i, src, dst, End(dst, ws), c)
  {
    hide Decode, Exec, Plus, Distance, ExecSeq, InRange, Low32, AssembleLdrLit19, SignExtend, LiteralInstr, Aligned,
         LiteralStable, Expected, Adjust, Disturbed, WrongAddress;
    var target := Plus(src, off);
    var delta := Distance(dst, target);
    var off' := SignExtend(delta & 0x1f_ffff, 0x10_0000);
    var i, i' := LiteralInstr(size, fpNeon, rt, off), LiteralInstr(size, fpNeon, rt, off');
    var w := AssembleLdrLit19(size, fpNeon, rt, Low32(delta));
    var wrong := WrongAddress(dst, target);
    WrongIs(dst, target);
    c := Blank(Disturbed(copied, target, wrong));
    StableWhenDisturbed(size, fpNeon, rt, src, dst, off, copied);
    PlusZero(target);
    WrappedFar(dst, target, 0);
    FlippedByte(copied, target, wrong);
    AlignedDelta(dst, target);
    ReencodedLiteral(size, fpNeon, rt, delta);
    ExecSeqOne(other, w, dst, c);
    LiteralDiffers(other, size, fpNeon, rt, off, off', src, dst, c);
    LiteralIsNext(other, size, fpNeon, rt, src, off, c);
    LiteralIsNext(other, size, fpNeon, rt, dst, off', c);
    ExpectedNext(other, i, src, dst, End(dst, [w]), c, Exec(other, i, src, c).core);
    AdjustLiteral(size, fpNeon, rt, off, src, dst, End(dst, [w]), Exec(other, i, src, c).core);
  }

  lemma StableWhenDisturbed(size: bv32, fpNeon: bv32, rt: Reg, src: Addr, dst: Addr, off: bv64, copied: Memory)
    requires size <= 2 && fpNeon <= 1
    requires var d := Distance(dst, Plus(src, off)); InRange(d, 0x20_0000) && !InRange(d, 0x10_0000)
    ensures LiteralStable(LiteralInstr(size, fpNeon, rt, off), src, copied,
                          Disturbed(copied, Plus(src, off), WrongAddress(dst, Plus(src, off))))
  {
    hide Plus, Load32, Load64, InRange, Distance, WrongAddress, Disturbed;
    DisturbedKeepsLiteral(copied, dst, Plus(src, off));
  }

  /** Out of range, a prefetch becomes a move of zero into the register its operation field names. */
  lemma PrefetchFails(other: OtherSemantics, op: Reg, src: Addr, dst: Addr, off: bv64, copied: Memory) returns (c: Core)
    requires op != XZR && !InRange(Distance(dst, Plus(src, off)), 0x20_0000)
    ensures LiteralStable(LiteralInstr(3, 0, op, off), src, copied, c.mem)
    ensures var i, ws := LiteralInstr(3, 0, op, off), LiteralWords(3, 0, op, dst, Plus(src, off), copied);
            ExecSeq(other, ws, dst, c) != Expected(other, i, src, dst, End(dst, ws), c)
  {
    hide Plus, Distance, ExecSeq, InRange, MovImmediate, Expected, Adjust, Exec;
    var i, ws := LiteralInstr(3, 0, op, off), MovImmediate(op, 0);
    c := Blank(copied).(x := map[op as nat := 1]);
    JustMov(other, op, 0, dst, c);
    PrefetchDoesNothing(other, op, off, src, c);
    ExpectedNext(other, i, src, dst, End(dst, ws), c, c);
    AdjustLiteral(3, 0, op, off, src, dst, End(dst, ws), c);
    assert c.x[op as nat := 0][op as nat] == 0;
    assert c.x[op as nat] == 1;
  }

  // --------------------------------------------------------------- The theorem

  lemma AdrExactly(other: OtherSemantics, src: Addr, dst: Addr, w: Word, copied: Memory) returns (c: Core)
    requires IsPcRelAddress(w) && !Relocatable(Decode(w), src, dst)
    ensures LiteralStable(Decode(w), src, copied, c.mem)
    ensures var ws := CopyAdr(src, dst, w);
            ExecSeq(other, ws, dst, c) != Expected(other, Decode(w), src, dst, End(dst, ws), c)
  {
    hide Decode, Plus, Distance, PageDelta, ExecSeq, InRange, Low12, Low32, AssembleAddImm12, AssembleAdr19, SetX,
         MovImmediate, SignExtend32, Imm21, Adr19Imm, Rd;
    DecodeAdr(w);
    Adr19ImmAgrees(w);
    c := AdrFails(other, Rd(w), Imm21(w), src, dst, copied);
  }

  lemma LiteralExactly(other: OtherSemantics, src: Addr, dst: Addr, w: Word, copied: Memory) returns (c: Core)
    requires IsLdrLiteral(w) && Allocated(w) && Aligned(src) && Aligned(dst)
    requires !Relocatable(Decode(w), src, dst)
    ensures LiteralStable(Decode(w), src, copied, c.mem)
    ensures var ws := CopyLdrLiteral(src, dst, w, copied);
            ExecSeq(other, ws, dst, c) != Expected(other, Decode(w), src, dst, End(dst, ws), c)
  {
    hide Decode, Plus, Distance, ExecSeq, InRange, SignExtend32, Offset19, Imm19, Aligned, IsLdrLiteral, LiteralInstr, Rd,
         Relocatable, Expected, LiteralWords, LiteralStable;
    LiteralWordIs(w);
    LiteralFields(w);
    Imm19Agrees(w);
    OffsetsAligned(w);
    var size, fpNeon, rt, off := w >> 30, (w >> 26) & 1, Rd(w), Offset19(w);
    AlignedSum(src, off);
    LiteralCases(size, fpNeon);
    LiteralRelocatable(size, fpNeon, rt, off, src, dst);
    if fpNeon == 0 && size == 3 {
      c := PrefetchFails(other, rt, src, dst, off, copied);
    } else {
      c := NearLiteralFails(other, size, fpNeon, rt, src, dst, off, copied);
    }
  }

  lemma BccExactly(other: OtherSemantics, src: Addr, dst: Addr, w: Word, copied: Memory) returns (c: Core)
    requires IsBCond(w) && Aligned(src) && Aligned(dst) && !Relocatable(Decode(w), src, dst)
    ensures LiteralStable(Decode(w), src, copied, c.mem)
    ensures var ws := CopyBcc(src, dst, w);
            ExecSeq(other, ws, dst, c) != Expected(other, Decode(w), src, dst, End(dst, ws), c)
  {
    hide Decode, Plus, Distance, ExecSeq, InRange, SignExtend32, Offset19, Imm19, IsBCond, CopyConditional,
         Relocatable, Expected, InvertedBcc;
    DecodeBCond(w);
    Imm19Agrees(w);
    BccInverted(w);
    c := Blank(copied);
    ConditionalForms(Decode(w), src, dst, Target(src, Decode(w)), 0x10_0000);
    BccFails(other, Decode(w), (inv, d) => InvertedBcc(w, inv, d), src, dst, Target(src, Decode(w)), c);
  }

  lemma CbzExactly(other: OtherSemantics, src: Addr, dst: Addr, w: Word, copied: Memory) returns (c: Core)
    requires IsCbz(w) && !Relocatable(Decode(w), src, dst)
    ensures LiteralStable(Decode(w), src, copied, c.mem)
    ensures var ws := CopyCbz(src, dst, w);
            ExecSeq(other, ws, dst, c) != Expected(other, Decode(w), src, dst, End(dst, ws), c)
  {
    hide Decode, Plus, Distance, ExecSeq, InRange, SignExtend32, Offset19, Imm19, IsCbz, CopyConditional,
         Relocatable, Expected, InvertedCbz, Rd, UsesX17;
    DecodeCbz(w);
    Imm19Agrees(w);
    CbzInverted(w);
    ConditionalForms(Decode(w), src, dst, Target(src, Decode(w)), 0x10_0000);
    c := TestOfX17Fails(other, Decode(w), (inv, d) => InvertedCbz(w, inv, d), src, dst, Target(src, Decode(w)), 0x10_0000,
                        copied);
  }

  lemma TbzExactly(other: OtherSemantics, src: Addr, dst: Addr, w: Word, copied: Memory) returns (c: Core)
    requires IsTbz(w) && !Relocatable(Decode(w), src, dst)
    ensures LiteralStable(Decode(w), src, copied, c.mem)
    ensures var ws := CopyTbz(src, dst, w);
            ExecSeq(other, ws, dst, c) != Expected(other, Decode(w), src, dst, End(dst, ws), c)
  {
    hide Decode, Plus, Distance, ExecSeq, InRange, SignExtend32, Offset14, Imm14, IsTbz, CopyConditional,
         Relocatable, Expected, InvertedTbz, Rd, UsesX17;
    DecodeTbz(w);
    Imm14Agrees(w);
    TbzInverted(w);
    ConditionalForms(Decode(w), src, dst, Target(src, Decode(w)), 0x2000);
    c := TestOfX17Fails(other, Decode(w), (inv, d) => InvertedTbz(w, inv, d), src, dst, Target(src, Decode(w)), 0x2000, copied);
  }

  lemma RelocatableClasses(i: Instr, src: Addr, dst: Addr)
    requires PositionFree(i) || i.B?
    ensures Relocatable(i, src, dst)
  {}

  lemma RelocationFails(other: OtherSemantics, src: Addr, dst: Addr, w: Word, copied: Memory) returns (c: Core)
    requires Aligned(src) && Aligned(dst) && Allocated(w) && !Relocatable(Decode(w), src, dst)
    ensures LiteralStable(Decode(w), src, copied, c.mem)
    ensures var ws := CopyWords(src, dst, w, copied);
            ExecSeq(other, ws, dst, c) != Expected(other, Decode(w), src, dst, End(dst, ws), c)
  {
    hide Decode, ExecSeq, Aligned, IsPcRelAddress, IsBCond, IsBranchImm, IsCbz, IsTbz, IsLdrLiteral, Allocated,
         Relocatable, Expected, CopyAdr, CopyBcc, CopyBorBl, CopyCbz, CopyTbz, CopyLdrLiteral, LiteralStable, End,
         PositionFree;
    if IsPcRelAddress(w) {
      c := AdrExactly(other, src, dst, w, copied);
    } else if IsBCond(w) {
      c := BccExactly(other, src, dst, w, copied);
    } else if IsBranchImm(w) {
      DecodeBranch(w);
      RelocatableClasses(Decode(w), src, dst);
      c := Blank(copied);
    } else if IsCbz(w) {
      c := CbzExactly(other, src, dst, w, copied);
    } else if IsTbz(w) {
      c := TbzExactly(other, src, dst, w, copied);
    } else if IsLdrLiteral(w) {
      c := LiteralExactly(other, src, dst, w, copied);
    } else {
      DecodeOther(w);
      RelocatableClasses(Decode(w), src, dst);
      c := Blank(copied);
    }
  }

  /** Moving an instruction is faithful in every state if and only if it is `Relocatable`, a test on
    * the instruction word and the two addresses. */
  lemma RelocationExact(other: OtherSemantics, src: Addr, dst: Addr, w: Word, copied: Memory)
    requires Aligned(src) && Aligned(dst) && Allocated(w)
    ensures Relocatable(Decode(w), src, dst) <==>
            forall c: Core | LiteralStable(Decode(w), src, copied, c.mem) ::
              var ws := CopyWords(src, dst, w, copied);
              ExecSeq(other, ws, dst, c) == Expected(other, Decode(w), src, dst, End(dst, ws), c)
  {
    hide Decode, ExecSeq, CopyWords, Expected, Relocatable, LiteralStable;
    if Relocatable(Decode(w), src, dst) {
      forall c: Core | LiteralStable(Decode(w), src, copied, c.mem)
        ensures var ws := CopyWords(src, dst, w, copied);
                ExecSeq(other, ws, dst, c) == Expected(other, Decode(w), src, dst, End(dst, ws), c)
      {
        RelocationSimulates(other, src, dst, w, copied, c);
      }
    } else {
      var c := RelocationFails(other, src, dst, w, copied);
    }
  }
}
