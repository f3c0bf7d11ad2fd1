/** What the emitted Thumb-2 instructions decode to. */
module ThumbBits {
  import opened ThumbEncoding
  import opened ThumbMachine
  import opened ThumbCopy

  // ------------------------------------------------------------------ 16 bits

  lemma Place5Form(op: Half, delta: bv32)
    requires IsCbz(op)
    ensures IsCbz(Place5(op, delta)) && !IsLong(Place5(op, delta))
  {}

  lemma Place5Fields(op: Half, delta: bv32)
    ensures CbzNz(Place5(op, delta)) == CbzNz(op) && LowReg(Place5(op, delta)) == LowReg(op)
  {}

  lemma CbzDecodes(op: Half, delta: bv32)
    requires IsCbz(op) && Fits5(delta) && EvenDelta(delta)
    ensures !IsLong(EncodeBranch5(op, delta)) && DecodeShort(EncodeBranch5(op, delta)) == Cbz(CbzNz(op), LowReg(op), delta)
  {
    hide IsCbz, IsLong, Place5, CbzNz, LowReg, Fits5, EvenDelta, DecodeBranch5;
    Place5Form(op, delta);
    Place5Fields(op, delta);
    Branch5RoundTrip(op, delta);
  }

  lemma InvertedForm(op: Half)
    requires IsCbz(op)
    ensures IsCbz(InvertedCbz(op)) && !IsLong(InvertedCbz(op))
  {}

  lemma InvertedFields(op: Half)
    ensures CbzNz(InvertedCbz(op)) == !CbzNz(op) && LowReg(InvertedCbz(op)) == LowReg(op)
  {}

  lemma InvertedDelta(op: Half)
    ensures DecodeBranch5(InvertedCbz(op)) == DecodeBranch5(op)
  {}

  lemma TwoFits5()
    ensures Fits5(2) && EvenDelta(2)
  {}

  lemma InvertedDecodes(op: Half)
    requires IsCbz(op)
    ensures !IsLong(InvertedCbz(EncodeBranch5(op, 2))) && DecodeShort(InvertedCbz(EncodeBranch5(op, 2))) == Cbz(!CbzNz(op), LowReg(op), 2)
  {
    TwoFits5();
    hide IsCbz, IsLong, Place5, CbzNz, LowReg, Fits5, EvenDelta, DecodeBranch5, InvertedCbz;
    Place5Form(op, 2);
    Place5Fields(op, 2);
    Branch5RoundTrip(op, 2);
    InvertedForm(Place5(op, 2));
    InvertedFields(Place5(op, 2));
    InvertedDelta(Place5(op, 2));
  }

  lemma Place8Form(op: Half, delta: bv32)
    requires IsBCond(op)
    ensures !IsCbz(Place8(op, delta)) && IsBCond(Place8(op, delta)) && !IsLong(Place8(op, delta))
  {}

  lemma Place8Fields(op: Half, delta: bv32)
    ensures Condition8(Place8(op, delta)) == Condition8(op)
  {}

  lemma BCondDecodes(op: Half, delta: bv32)
    requires IsBCond(op) && Fits8(delta) && EvenDelta(delta)
    ensures !IsLong(EncodeBranch8(op, delta)) && DecodeShort(EncodeBranch8(op, delta)) == BCond(Condition8(op), delta)
  {
    hide IsCbz, IsBCond, IsLong, Place8, Condition8, Fits8, EvenDelta, DecodeBranch8;
    Place8Form(op, delta);
    Place8Fields(op, delta);
    Branch8RoundTrip(op, delta);
  }

  lemma Place11Form(op: Half, delta: bv32)
    requires IsB(op)
    ensures !IsCbz(Place11(op, delta)) && !IsBCond(Place11(op, delta)) && IsB(Place11(op, delta)) && !IsLong(Place11(op, delta))
  {}

  lemma BDecodes(op: Half, delta: bv32)
    requires IsB(op) && Fits11(delta) && EvenDelta(delta)
    ensures !IsLong(EncodeBranch11(op, delta)) && DecodeShort(EncodeBranch11(op, delta)) == B(delta)
  {
    hide IsCbz, IsBCond, IsB, IsLong, Place11, Fits11, EvenDelta, DecodeBranch11;
    Place11Form(op, delta);
    Branch11RoundTrip(op, delta);
  }

  lemma OverForm()
    ensures !IsCbz(OVER) && !IsBCond(OVER) && IsB(OVER) && !IsLong(OVER)
  {}

  lemma OverDecodes()
    ensures !IsLong(OVER) && DecodeShort(OVER) == B(2)
  {
    assert DecodeBranch11(OVER) == 2;
    OverForm();
    hide IsCbz, IsBCond, IsB, IsLong, DecodeBranch11, OVER;
  }

  lemma BlxForm()
    ensures !IsCbz(BLX_LR) && !IsBCond(BLX_LR) && !IsB(BLX_LR) && IsBlx(BLX_LR) && !IsLong(BLX_LR)
  {}

  lemma BlxLrDecodes()
    ensures !IsLong(BLX_LR) && DecodeShort(BLX_LR) == Blx(LR)
  {
    assert BlxReg(BLX_LR) == LR;
    BlxForm();
    hide IsCbz, IsBCond, IsB, IsBlx, IsLong, BlxReg, BLX_LR;
  }

  lemma LdrNoOffsetForm(reg: Reg)
    requires IsLowReg(reg)
    ensures var h := LdrNoOffset(reg);
            !IsCbz(h) && !IsBCond(h) && !IsB(h) && !IsBlx(h) && !IsLdrLiteral(h) && IsLdrNoOffset(h) && !IsLong(h)
  {}

  lemma LdrNoOffsetFields(reg: Reg)
    requires IsLowReg(reg)
    ensures LowReg(LdrNoOffset(reg)) == reg && BaseReg(LdrNoOffset(reg)) == reg
  {}

  lemma LdrNoOffsetDecodes(reg: Reg)
    requires IsLowReg(reg)
    ensures !IsLong(LdrNoOffset(reg)) && DecodeShort(LdrNoOffset(reg)) == LdrRegister(reg, reg)
  {
    hide IsCbz, IsBCond, IsB, IsBlx, IsLdrLiteral, IsLdrNoOffset, IsLong, LowReg, BaseReg, LdrNoOffset, IsLowReg;
    LdrNoOffsetForm(reg);
    LdrNoOffsetFields(reg);
  }

  // ------------------------------------------------------------------ 32 bits

  lemma JoinHalves(w: Long)
    ensures Join(High(w), Low(w)) == w
  {}

  /** The leading bits of every 32-bit instruction that is emitted. */
  predicate StartsLong(w: Long) { w & 0xf000_0000 == 0xf000_0000 }

  lemma StartsLongIs(w: Long)
    requires StartsLong(w)
    ensures IsLong(High(w))
  {}

  lemma LongDecodes(w: Long)
    requires StartsLong(w)
    ensures IsLong(High(w)) && Decode(High(w), Low(w)) == DecodeLong(w)
  {
    hide IsLong, StartsLong, Join, High, Low, DecodeLong;
    JoinHalves(w);
    StartsLongIs(w);
  }

  lemma Place20Form(op: Long, delta: bv32)
    requires IsBCondW(op)
    ensures IsBCondW(Place20(op, delta)) && StartsLong(Place20(op, delta))
  {}

  lemma Place20Fields(op: Long, delta: bv32)
    ensures Condition20(Place20(op, delta)) == Condition20(op)
  {}

  lemma BCondWDecodes(op: Long, delta: bv32)
    requires IsBCondW(op) && Fits20(delta) && EvenDelta(delta)
    ensures var w := EncodeBranch20(op, delta); IsLong(High(w)) && Decode(High(w), Low(w)) == BCond(Condition20(op), delta)
  {
    hide IsBCondW, Place20, Condition20, Fits20, EvenDelta, DecodeBranch20, StartsLong, Decode, High, Low, IsLong;
    Place20Form(op, delta);
    Place20Fields(op, delta);
    Branch20RoundTrip(op, delta);
    LongDecodes(Place20(op, delta));
  }

  lemma Place24Form(op: Long, delta: bv32)
    requires IsBW(op)
    ensures !IsBCondW(Place24(op, delta)) && IsBW(Place24(op, delta)) && StartsLong(Place24(op, delta))
  {}

  lemma BWDecodes(op: Long, delta: bv32)
    requires IsBW(op) && Fits24(delta) && EvenDelta(delta)
    ensures var w := EncodeBranch24(op, delta); IsLong(High(w)) && Decode(High(w), Low(w)) == B(delta)
  {
    hide IsBCondW, IsBW, Place24, Fits24, EvenDelta, DecodeBranch24, StartsLong, Decode, High, Low, IsLong;
    Place24Form(op, delta);
    Branch24RoundTrip(op, delta);
    LongDecodes(Place24(op, delta));
  }

  lemma BwIsBW()
    ensures IsBW(B_W)
  {}

  lemma LdrNoOffsetWForm(reg: Reg)
    requires reg != PC
    ensures var w := LdrNoOffsetW(reg);
            !IsBCondW(w) && !IsBW(w) && !IsBl(w) && !IsLdrLiteralW(w) && IsLdrNoOffsetW(w) && StartsLong(w)
  {}

  lemma LdrNoOffsetWFields(reg: Reg)
    ensures LiteralRegW(LdrNoOffsetW(reg)) == reg && BaseRegW(LdrNoOffsetW(reg)) == reg
  {}

  lemma LdrNoOffsetWDecodes(reg: Reg)
    requires reg != PC
    ensures var w := LdrNoOffsetW(reg); IsLong(High(w)) && Decode(High(w), Low(w)) == LdrRegister(reg, reg)
  {
    hide IsBCondW, IsBW, IsBl, IsLdrLiteralW, IsLdrNoOffsetW, StartsLong, LiteralRegW, BaseRegW, LdrNoOffsetW, Decode, High, Low, IsLong;
    LdrNoOffsetWForm(reg);
    LdrNoOffsetWFields(reg);
    LongDecodes(LdrNoOffsetW(reg));
  }

  lemma LiteralWordForm(reg: Reg, imm: bv32)
    ensures var w := LiteralWord(reg, imm, 1);
            !IsBCondW(w) && !IsBW(w) && !IsBl(w) && IsLdrLiteralW(w) && StartsLong(w)
  {}

  lemma LiteralWordFields(reg: Reg, imm: bv32)
    ensures LiteralRegW(LiteralWord(reg, imm, 1)) == reg && Adds(LiteralWord(reg, imm, 1))
  {}

  lemma LiteralWordOffset(reg: Reg, imm: bv32)
    ensures Literal12(LiteralWord(reg, RoundedTo4(imm), 1)) == RoundedTo4(imm)
  {}

  lemma LiteralWordDecodes(reg: Reg, imm: bv32)
    ensures var w := LiteralWord(reg, RoundedTo4(imm), 1); IsLong(High(w)) && Decode(High(w), Low(w)) == LdrLiteral(reg, RoundedTo4(imm))
  {
    hide IsBCondW, IsBW, IsBl, IsLdrLiteralW, StartsLong, LiteralRegW, Literal12, Adds, LiteralWord, RoundedTo4, Decode, High, Low, Negated, IsLong;
    LiteralWordForm(reg, RoundedTo4(imm));
    LiteralWordFields(reg, RoundedTo4(imm));
    LiteralWordOffset(reg, imm);
    LongDecodes(LiteralWord(reg, RoundedTo4(imm), 1));
  }

  // ------------------------------------------------------------------ Addresses

  lemma There(at: Addr, target: Addr)
    ensures Plus(at, Minus(target, at)) == target
  {
    assert Minus(target, at) == target - at;
    assert Plus(at, target - at) == at + (target - at);
  }

  lemma BranchBack(pc: Addr, target: Addr)
    ensures BranchTarget(pc, Minus(target, ReadPc(pc))) == target
  {
    hide Plus, Minus, ReadPc;
    There(ReadPc(pc), target);
  }

  lemma SkipTwo(pc: Addr)
    ensures BranchTarget(pc, 2) == Plus(Plus(pc, 2), 4)
  {}

  lemma EvenSum(a: Addr, off: bv32)
    requires Even(a) && EvenDelta(off)
    ensures Even(Plus(a, off))
  {}

  lemma EvenDifference(to: Addr, from: Addr)
    requires Even(to) && Even(from)
    ensures EvenDelta(Minus(to, from))
  {}

  /** A literal `d` bytes ahead of an instruction, at a multiple of four and within 4 KB. */
  predicate Ahead(dst: Addr, d: bv32) { dst & 1 == 0 && (dst + d) & 3 == 0 && 4 <= d <= 0xffe }

  function TwoLess(d: bv32): bv32 { d - 2 }

  function Found(dst: Addr, d: bv32): Addr { ((dst + 4) & 0xffff_fffc) + ((d - 2) & 0xffc) }

  lemma FoundRaw(dst: Addr, d: bv32)
    requires dst & 1 == 0 && (dst + d) & 3 == 0 && 4 <= d <= 0xffe
    ensures ((dst + 4) & 0xffff_fffc) + ((d - 2) & 0xffc) == dst + d
  {}

  lemma FoundThere(dst: Addr, d: bv32)
    requires Ahead(dst, d)
    ensures Found(dst, d) == Plus(dst, d)
  {
    FoundRaw(dst, d);
  }

  lemma LiteralAddressIs(dst: Addr, d: bv32)
    ensures LiteralAddress(dst, RoundedTo4(TwoLess(d))) == Found(dst, d)
  {}

  lemma LiteralDeltaRaw(dst: Addr, d: bv32)
    ensures LiteralDelta(dst + d, dst) == TwoLess(d)
  {}

  lemma PlusIs(a: Addr, d: bv32)
    ensures Plus(a, d) == a + d
  {}

  lemma LiteralDeltaIs(dst: Addr, d: bv32)
    ensures LiteralDelta(Plus(dst, d), dst) == TwoLess(d)
  {
    hide *;
    PlusIs(dst, d);
    LiteralDeltaRaw(dst, d);
  }

  lemma AheadIsPositive(dst: Addr, d: bv32)
    requires Ahead(dst, d)
    ensures IsPositive(TwoLess(d))
  {}

  lemma EmitPositive(dst: Addr, reg: Reg, literal: Addr, delta: bv32)
    requires LiteralDelta(literal, dst) == delta && IsPositive(delta)
    ensures EmitLiteralLoad12(dst, reg, literal) == LiteralWord(reg, RoundedTo4(delta), 1)
  {}

  /** The literal load that is emitted reads the literal, at both alignments of the instruction. */
  lemma LiteralLoadDecodes(dst: Addr, d: bv32, reg: Reg)
    requires Ahead(dst, d)
    ensures exists off :: LiteralAddress(dst, off) == Plus(dst, d)
              && var w := EmitLiteralLoad12(dst, reg, Plus(dst, d)); IsLong(High(w)) && Decode(High(w), Low(w)) == LdrLiteral(reg, off)
  {
    hide *;
    LiteralDeltaIs(dst, d);
    AheadIsPositive(dst, d);
    FoundThere(dst, d);
    LiteralAddressIs(dst, d);
    EmitPositive(dst, reg, Plus(dst, d), TwoLess(d));
    LiteralWordDecodes(reg, TwoLess(d));
  }
}
