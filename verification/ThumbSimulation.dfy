/** A moved Thumb-2 instruction does what it did. */
module ThumbSimulation {
  import opened ThumbEncoding
  import opened ThumbMachine
  import opened ThumbCopy
  import opened ThumbBits

  // ------------------------------------------------------------------------- Meaning

  /** The pool word, if there is one, is in its place. */
  predicate PoolAt(m: Memory, pool: Addr, words: seq<bv32>) {
    words != [] ==> Load(m, pool) == words[0]
  }

  predicate Placed(m: Memory, dst: Addr, pool: Addr, k: Copied) { CodeAt(m, dst, k.code) && PoolAt(m, pool, k.pool) }

  predicate Links(i: Instr) { i.Bl? || i.Blx? || (i.UsesPc? && i.use.BlxLabel?) }

  /** What the instruction does at its own address, continuing at `end` instead of after it. */
  function Expected(other: OtherSemantics, i: Instr, src: Addr, end: Addr, c: Core): Machine {
    match Exec(other, i, src, c)
    case Next(c') => Thumb(State(end, c'))
    case Goto(t, c') => Thumb(State(t, if Links(i) then SetR(c', LR, WithBit0(end)) else c'))
    case Leave(t, c') => Arm(State(t, if Links(i) then SetR(c', LR, WithBit0(end)) else c'))
  }

  ghost predicate Reaches(other: OtherSemantics, s: State, m: Machine) { exists n: nat :: n > 0 && Run(other, s, n) == m }

  /** The moved instruction reaches what the instruction does. */
  ghost predicate Simulates(other: OtherSemantics, i: Instr, src: Addr, dst: Addr, k: Copied, c: Core) {
    Reaches(other, State(dst, c), Expected(other, i, src, End(dst, k.code), c))
  }

  /** The pool is `d` bytes ahead, far enough for the longest form and near enough for a literal load. */
  predicate PoolAhead(dst: Addr, d: bv32) { dst & 1 == 0 && (dst + d) & 3 == 0 && 10 <= d <= 0xffe }

  // -------------------------------------------------------------------------- Running

  lemma RunOne(other: OtherSemantics, s: State)
    ensures Run(other, s, 1) == Step(other, s)
  {
    hide Fetch, Step;
    var m := Step(other, s);
    assert m.Thumb? ==> Run(other, m.state, 0) == m;
  }

  lemma ReachNow(other: OtherSemantics, s: State, m: Machine)
    requires Step(other, s) == m
    ensures Reaches(other, s, m)
  {
    hide Fetch, Step;
    RunOne(other, s);
  }

  lemma ReachThen(other: OtherSemantics, s: State, t: State, m: Machine)
    requires Step(other, s) == Thumb(t) && Reaches(other, t, m)
    ensures Reaches(other, s, m)
  {
    hide Fetch, Step;
    var n: nat :| n > 0 && Run(other, t, n) == m;
    assert Run(other, s, n + 1) == m;
  }

  lemma StepShort(other: OtherSemantics, pc: Addr, c: Core, h: Half, i: Instr)
    requires Fetch(c.mem, pc) == h && !IsLong(h) && DecodeShort(h) == i
    ensures Step(other, State(pc, c)) == After(Exec(other, i, pc, c), pc, 2)
  {
    hide Fetch, DecodeShort, DecodeLong, Exec, Plus, IsLong;
  }

  lemma StepLong(other: OtherSemantics, pc: Addr, c: Core, w: Long, i: Instr)
    requires Fetch(c.mem, pc) == High(w) && Fetch(c.mem, Plus(pc, 2)) == Low(w) && IsLong(High(w)) && Decode(High(w), Low(w)) == i
    ensures Step(other, State(pc, c)) == After(Exec(other, i, pc, c), pc, 4)
  {
    hide Fetch, Decode, Exec, Plus, High, Low, IsLong;
  }

  // ------------------------------------------------------------------------- Addresses

  lemma WithBit0Goes(target: Addr)
    requires Even(target)
    ensures Bit0(WithBit0(target)) && WithoutBit0(WithBit0(target)) == target
  {}

  lemma AheadAtOnce(dst: Addr, d: bv32)
    requires PoolAhead(dst, d)
    ensures Ahead(dst, d)
  {}

  function Less(d: bv32, k: bv32): bv32 { d - k }

  lemma LessIs(d: bv32, k: bv32)
    ensures Less(d, k) == d - k
  {}

  lemma AheadRaw2(dst: Addr, d: bv32)
    requires PoolAhead(dst, d)
    ensures Ahead(dst + 2, d - 2)
  {}

  lemma AheadRaw4(dst: Addr, d: bv32)
    requires PoolAhead(dst, d)
    ensures Ahead(dst + 4, d - 4)
  {}

  lemma AheadRaw6(dst: Addr, d: bv32)
    requires PoolAhead(dst, d)
    ensures Ahead(dst + 6, d - 6)
  {}

  lemma SameRaw(dst: Addr, d: bv32, k: bv32)
    ensures Plus(dst + k, d - k) == dst + d
  {}

  /** The pool from 2, 4 or 6 bytes further on. */
  lemma AheadFrom(dst: Addr, d: bv32, k: bv32)
    requires PoolAhead(dst, d) && (k == 2 || k == 4 || k == 6)
    ensures Ahead(Plus(dst, k), Less(d, k)) && Plus(Plus(dst, k), Less(d, k)) == Plus(dst, d)
  {
    hide *;
    PlusIs(dst, k);
    PlusIs(dst, d);
    LessIs(d, k);
    SameRaw(dst, d, k);
    if k == 2 { AheadRaw2(dst, d); } else if k == 4 { AheadRaw4(dst, d); } else { AheadRaw6(dst, d); }
  }

  lemma Plus22(a: Addr)
    ensures Plus(Plus(a, 2), 2) == Plus(a, 4)
  {}

  lemma Plus42(a: Addr)
    ensures Plus(Plus(a, 4), 2) == Plus(a, 6)
  {}

  lemma Skip2(a: Addr)
    ensures BranchTarget(a, 2) == Plus(a, 6)
  {}

  lemma Skip0(a: Addr)
    ensures BranchTarget(a, 0) == Plus(a, 4)
  {}

  lemma ShortCode(m: Memory, a: Addr, h: Half, rest: seq<Half>)
    ensures CodeAt(m, a, [h] + rest) <==> Fetch(m, a) == h && CodeAt(m, Plus(a, 2), rest)
    ensures End(a, [h] + rest) == End(Plus(a, 2), rest)
  {
    hide Fetch, Plus;
    assert ([h] + rest)[1..] == rest;
  }

  lemma LongCode(m: Memory, a: Addr, w: Long, rest: seq<Half>)
    ensures CodeAt(m, a, Halves(w) + rest) <==> Fetch(m, a) == High(w) && Fetch(m, Plus(a, 2)) == Low(w) && CodeAt(m, Plus(a, 4), rest)
    ensures End(a, Halves(w) + rest) == End(Plus(a, 4), rest)
  {
    hide Fetch, Plus, High, Low, CodeAt, End;
    assert Halves(w) + rest == [High(w)] + ([Low(w)] + rest);
    ShortCode(m, a, High(w), [Low(w)] + rest);
    ShortCode(m, Plus(a, 2), Low(w), rest);
    Plus22(a);
  }

  lemma NoCode(m: Memory, a: Addr)
    ensures CodeAt(m, a, []) && End(a, []) == a
  {}

  lemma ShortAlone(m: Memory, a: Addr, h: Half)
    ensures CodeAt(m, a, [h]) <==> Fetch(m, a) == h
    ensures End(a, [h]) == Plus(a, 2)
  {
    hide Fetch, Plus, CodeAt, End;
    assert [h] == [h] + [];
    ShortCode(m, a, h, []);
    NoCode(m, Plus(a, 2));
  }

  lemma LongAlone(m: Memory, a: Addr, w: Long)
    ensures CodeAt(m, a, Halves(w)) <==> Fetch(m, a) == High(w) && Fetch(m, Plus(a, 2)) == Low(w)
    ensures End(a, Halves(w)) == Plus(a, 4)
  {
    hide Fetch, Plus, CodeAt, End, Halves;
    assert Halves(w) == Halves(w) + [];
    LongCode(m, a, w, []);
    NoCode(m, Plus(a, 4));
  }

  // -------------------------------------------------------------------- The long forms

  /** A literal load from the pool, as one step. */
  lemma LiteralLoadRuns(other: OtherSemantics, a: Addr, d: bv32, reg: Reg, c: Core)
    requires Ahead(a, d) && CodeAt(c.mem, a, Halves(EmitLiteralLoad12(a, reg, Plus(a, d))))
    ensures Step(other, State(a, c)) == After(Loaded(reg, Load(c.mem, Plus(a, d)), c), a, 4)
  {
    hide Fetch, Plus, Load, LiteralAddress, EmitLiteralLoad12, High, Low, Decode, DecodeShort, IsLong, Loaded, CodeAt, Halves, Ahead, Step;
    LiteralLoadDecodes(a, d, reg);
    var w := EmitLiteralLoad12(a, reg, Plus(a, d));
    var off :| LiteralAddress(a, off) == Plus(a, d) && Decode(High(w), Low(w)) == LdrLiteral(reg, off);
    LongAlone(c.mem, a, w);
    StepLong(other, a, c, w, LdrLiteral(reg, off));
  }

  lemma LongBranchIs(a: Addr, target: Addr, pool: Addr)
    ensures EmitLongBranch(a, target, pool) == Copied(Halves(EmitLiteralLoad12(a, PC, pool)), [WithBit0(target)])
  {
    hide Fetch, EmitLiteralLoad12, Halves, WithBit0;
    assert Halves(EmitLiteralLoad12(a, PC, pool)) + [] == Halves(EmitLiteralLoad12(a, PC, pool));
  }

  lemma ExchangeGoes(target: Addr, c: Core)
    requires Even(target)
    ensures Loaded(PC, WithBit0(target), c) == Goto(target, c)
  {
    hide Fetch, Bit0, WithBit0, WithoutBit0, Even;
    WithBit0Goes(target);
  }

  /** A long branch reaches its target in one step. */
  lemma LongBranchRuns(other: OtherSemantics, a: Addr, d: bv32, target: Addr, pool: Addr, c: Core)
    requires Ahead(a, d) && Plus(a, d) == pool && Even(target) && Placed(c.mem, a, pool, EmitLongBranch(a, target, pool))
    ensures Step(other, State(a, c)) == Thumb(State(target, c))
    ensures End(a, EmitLongBranch(a, target, pool).code) == Plus(a, 4)
  {
    hide Fetch, Plus, Load, EmitLongBranch, EmitLiteralLoad12, Loaded, Halves, CodeAt, Step, End, Ahead, WithBit0, Even;
    LongBranchIs(a, target, pool);
    LiteralLoadRuns(other, a, d, PC, c);
    ExchangeGoes(target, c);
    LongAlone(c.mem, a, EmitLiteralLoad12(a, PC, pool));
  }

  lemma BranchTargetEven(src: Addr, delta: bv32)
    requires Even(src) && EvenDelta(delta)
    ensures Even(BranchTarget(src, delta))
  {}

  lemma NewDeltaEven(target: Addr, dst: Addr)
    requires Even(target) && Even(dst)
    ensures EvenDelta(Minus(target, ReadPc(dst)))
  {}

  // ------------------------------------------------------------------------ CBZ, CBNZ

  lemma Delta5Even(op: Half)
    ensures EvenDelta(DecodeBranch5(op))
  {}

  lemma CbzIs(op: Half)
    requires IsCbz(op)
    ensures !IsLong(op) && DecodeShort(op) == Cbz(CbzNz(op), LowReg(op), DecodeBranch5(op))
  {
    CbzIsShort(op);
    hide Fetch, IsCbz, IsLong, CbzNz, LowReg, DecodeBranch5;
  }

  lemma CbzIsShort(op: Half)
    requires IsCbz(op)
    ensures !IsLong(op)
  {}

  lemma CbzNear(other: OtherSemantics, src: Addr, dst: Addr, op: Half, c: Core, target: Addr)
    requires IsCbz(op) && Even(dst) && Even(target) && target == BranchTarget(src, DecodeBranch5(op))
    requires Fits5(Minus(target, ReadPc(dst)))
    requires Fetch(c.mem, dst) == EncodeBranch5(op, Minus(target, ReadPc(dst)))
    ensures Step(other, State(dst, c)) == Expected(other, Cbz(CbzNz(op), LowReg(op), DecodeBranch5(op)), src, Plus(dst, 2), c)
  {
    hide Fetch, Plus, Minus, ReadPc, BranchTarget, IsCbz, Fits5, EvenDelta, Even, EncodeBranch5, Decode, DecodeShort, IsLong, CbzNz, LowReg, DecodeBranch5, GetR, Step;
    var delta := Minus(target, ReadPc(dst));
    NewDeltaEven(target, dst);
    CbzDecodes(op, delta);
    StepShort(other, dst, c, Fetch(c.mem, dst), Cbz(CbzNz(op), LowReg(op), delta));
    BranchBack(dst, target);
  }

  lemma CbzLong(other: OtherSemantics, src: Addr, dst: Addr, d: bv32, op: Half, c: Core, target: Addr)
    requires IsCbz(op) && PoolAhead(dst, d) && Even(target) && target == BranchTarget(src, DecodeBranch5(op))
    requires Fetch(c.mem, dst) == InvertedCbz(EncodeBranch5(op, 2))
    requires Placed(c.mem, Plus(dst, 2), Plus(dst, d), EmitLongBranch(Plus(dst, 2), target, Plus(dst, d)))
    ensures Reaches(other, State(dst, c), Expected(other, Cbz(CbzNz(op), LowReg(op), DecodeBranch5(op)), src, Plus(dst, 6), c))
  {
    hide Fetch, Plus, BranchTarget, IsCbz, Even, EncodeBranch5, InvertedCbz, Decode, DecodeShort, IsLong, CbzNz, LowReg, DecodeBranch5, GetR, Step, Placed,
         EmitLongBranch, PoolAhead, Ahead, Less, Reaches, End;
    var inverted := Cbz(!CbzNz(op), LowReg(op), 2);
    InvertedDecodes(op);
    StepShort(other, dst, c, Fetch(c.mem, dst), inverted);
    Skip2(dst);
    if (GetR(c, LowReg(op)) == 0) != CbzNz(op) {
      AheadFrom(dst, d, 2);
      LongBranchRuns(other, Plus(dst, 2), Less(d, 2), target, Plus(dst, d), c);
      ReachNow(other, State(Plus(dst, 2), c), Thumb(State(target, c)));
      ReachThen(other, State(dst, c), State(Plus(dst, 2), c), Thumb(State(target, c)));
    } else {
      ReachNow(other, State(dst, c), Thumb(State(Plus(dst, 6), c)));
    }
  }

  lemma CbzSimulates(other: OtherSemantics, src: Addr, dst: Addr, d: bv32, op: Half, c: Core)
    requires IsCbz(op) && Even(src) && PoolAhead(dst, d)
    requires Placed(c.mem, dst, Plus(dst, d), CopyCbz(src, dst, op, Plus(dst, d)))
    ensures Simulates(other, Cbz(CbzNz(op), LowReg(op), DecodeBranch5(op)), src, dst, CopyCbz(src, dst, op, Plus(dst, d)), c)
  {
    hide Fetch, Plus, Minus, ReadPc, BranchTarget, IsCbz, Fits5, Even, EncodeBranch5, InvertedCbz, CbzNz, LowReg, DecodeBranch5, Step,
         EmitLongBranch, PoolAhead, Ahead, Reaches, End, CodeAt, Expected;
    var target, pool := BranchTarget(src, DecodeBranch5(op)), Plus(dst, d);
    Delta5Even(op);
    BranchTargetEven(src, DecodeBranch5(op));
    if Fits5(Minus(target, ReadPc(dst))) {
      PoolAheadEven(dst, d);
      ShortAlone(c.mem, dst, EncodeBranch5(op, Minus(target, ReadPc(dst))));
      CbzNear(other, src, dst, op, c, target);
      ReachNow(other, State(dst, c), Step(other, State(dst, c)));
    } else {
      var long := EmitLongBranch(Plus(dst, 2), target, pool);
      ShortCode(c.mem, dst, InvertedCbz(EncodeBranch5(op, 2)), long.code);
      LongBranchEnds(Plus(dst, 2), target, pool);
      Plus24(dst);
      CbzLong(other, src, dst, d, op, c, target);
    }
  }

  lemma PoolAheadEven(dst: Addr, d: bv32)
    requires PoolAhead(dst, d)
    ensures Even(dst)
  {}

  lemma Plus24(a: Addr)
    ensures Plus(Plus(a, 2), 4) == Plus(a, 6)
  {}

  lemma LongBranchEnds(a: Addr, target: Addr, pool: Addr)
    ensures End(a, EmitLongBranch(a, target, pool).code) == Plus(a, 4)
  {
    hide Fetch, Plus, EmitLongBranch, EmitLiteralLoad12, Halves, CodeAt, End;
    LongBranchIs(a, target, pool);
    LongAlone(x => 0, a, EmitLiteralLoad12(a, PC, pool));
  }

  // ------------------------------------------------------------ Conditional branches

  /** A branch over a long branch: entered at once it skips, entered 2 bytes on it goes to the target. */
  lemma OverRuns(other: OtherSemantics, a: Addr, d: bv32, target: Addr, pool: Addr, c: Core)
    requires Fetch(c.mem, a) == OVER && Ahead(Plus(a, 2), d) && Plus(Plus(a, 2), d) == pool && Even(target)
    requires Placed(c.mem, Plus(a, 2), pool, EmitLongBranch(Plus(a, 2), target, pool))
    ensures Reaches(other, State(a, c), Thumb(State(Plus(a, 6), c)))
    ensures Reaches(other, State(Plus(a, 2), c), Thumb(State(target, c)))
    ensures End(Plus(a, 2), EmitLongBranch(Plus(a, 2), target, pool).code) == Plus(a, 6)
  {
    hide Fetch, Plus, BranchTarget, Even, Decode, DecodeShort, IsLong, Step, Placed, EmitLongBranch, Ahead, Reaches, End, OVER;
    OverDecodes();
    StepShort(other, a, c, Fetch(c.mem, a), B(2));
    Skip2(a);
    ReachNow(other, State(a, c), Thumb(State(Plus(a, 6), c)));
    LongBranchRuns(other, Plus(a, 2), d, target, pool, c);
    ReachNow(other, State(Plus(a, 2), c), Thumb(State(target, c)));
    Plus24(a);
  }

  /** A conditional branch of `size` bytes into such a pair. */
  lemma BCondLong(other: OtherSemantics, src: Addr, dst: Addr, d: bv32, pool: Addr, cond: bv4, delta: bv32, size: bv32, near: bv32,
                  target: Addr, c: Core)
    requires target == BranchTarget(src, delta) && Even(target)
    requires Step(other, State(dst, c)) == After(Exec(other, BCond(cond, near), dst, c), dst, size)
    requires BranchTarget(dst, near) == Plus(Plus(dst, size), 2)
    requires Fetch(c.mem, Plus(dst, size)) == OVER && Ahead(Plus(Plus(dst, size), 2), d) && Plus(Plus(Plus(dst, size), 2), d) == pool
    requires Placed(c.mem, Plus(Plus(dst, size), 2), pool, EmitLongBranch(Plus(Plus(dst, size), 2), target, pool))
    ensures Reaches(other, State(dst, c), Expected(other, BCond(cond, delta), src, Plus(Plus(dst, size), 6), c))
    ensures End(Plus(Plus(dst, size), 2), EmitLongBranch(Plus(Plus(dst, size), 2), target, pool).code) == Plus(Plus(dst, size), 6)
  {
    hide Fetch, Plus, BranchTarget, Even, Step, Placed, EmitLongBranch, Ahead, Reaches, End, OVER, Holds;
    var a := Plus(dst, size);
    OverRuns(other, a, d, target, pool, c);
    if Holds(cond, c.nzcv) {
      ReachThen(other, State(dst, c), State(Plus(a, 2), c), Thumb(State(target, c)));
    } else {
      ReachThen(other, State(dst, c), State(a, c), Thumb(State(Plus(a, 6), c)));
    }
  }

  lemma BCondNear(other: OtherSemantics, src: Addr, dst: Addr, cond: bv4, delta: bv32, size: bv32, target: Addr, c: Core)
    requires target == BranchTarget(src, delta)
    requires Step(other, State(dst, c)) == After(Exec(other, BCond(cond, Minus(target, ReadPc(dst))), dst, c), dst, size)
    ensures Step(other, State(dst, c)) == Expected(other, BCond(cond, delta), src, Plus(dst, size), c)
  {
    hide Fetch, Plus, Minus, ReadPc, BranchTarget, Step, Holds;
    BranchBack(dst, target);
  }

  lemma Delta8Even(op: Half)
    ensures EvenDelta(DecodeBranch8(op))
  {}

  lemma ZeroFits8()
    ensures Fits8(0) && EvenDelta(0)
  {}

  lemma Skip0From2(a: Addr)
    ensures BranchTarget(a, 0) == Plus(Plus(a, 2), 2)
  {}

  lemma BCondStep(other: OtherSemantics, dst: Addr, op: Half, delta: bv32, c: Core)
    requires IsBCond(op) && Fits8(delta) && EvenDelta(delta) && Fetch(c.mem, dst) == EncodeBranch8(op, delta)
    ensures Step(other, State(dst, c)) == After(Exec(other, BCond(Condition8(op), delta), dst, c), dst, 2)
  {
    hide Fetch, IsBCond, Fits8, EvenDelta, EncodeBranch8, Condition8, Decode, DecodeShort, IsLong, Exec, Step;
    BCondDecodes(op, delta);
    StepShort(other, dst, c, Fetch(c.mem, dst), BCond(Condition8(op), delta));
  }

  lemma BCondSimulates(other: OtherSemantics, src: Addr, dst: Addr, d: bv32, op: Half, c: Core)
    requires IsBCond(op) && Even(src) && PoolAhead(dst, d)
    requires Placed(c.mem, dst, Plus(dst, d), CopyBCond(src, dst, op, Plus(dst, d)))
    ensures Simulates(other, BCond(Condition8(op), DecodeBranch8(op)), src, dst, CopyBCond(src, dst, op, Plus(dst, d)), c)
  {
    hide Fetch, Plus, Minus, ReadPc, BranchTarget, IsBCond, Fits8, Even, EvenDelta, EncodeBranch8, Condition8, DecodeBranch8, Step, Exec,
         EmitLongBranch, PoolAhead, Ahead, Reaches, End, CodeAt, Expected, OVER, Less;
    var target, pool, delta := BranchTarget(src, DecodeBranch8(op)), Plus(dst, d), DecodeBranch8(op);
    Delta8Even(op);
    BranchTargetEven(src, delta);
    PoolAheadEven(dst, d);
    if Fits8(Minus(target, ReadPc(dst))) {
      NewDeltaEven(target, dst);
      ShortAlone(c.mem, dst, EncodeBranch8(op, Minus(target, ReadPc(dst))));
      BCondStep(other, dst, op, Minus(target, ReadPc(dst)), c);
      BCondNear(other, src, dst, Condition8(op), delta, 2, target, c);
      ReachNow(other, State(dst, c), Step(other, State(dst, c)));
    } else {
      Plus22(dst);
      var long := EmitLongBranch(Plus(dst, 4), target, pool);
      ZeroFits8();
      assert [EncodeBranch8(op, 0), OVER] + long.code == [EncodeBranch8(op, 0)] + ([OVER] + long.code);
      ShortCode(c.mem, dst, EncodeBranch8(op, 0), [OVER] + long.code);
      ShortCode(c.mem, Plus(dst, 2), OVER, long.code);
      BCondStep(other, dst, op, 0, c);
      AheadFrom(dst, d, 4);
      Skip0From2(dst);
      BCondLong(other, src, dst, Less(d, 4), pool, Condition8(op), delta, 2, 0, target, c);
    }
  }

  lemma Delta20Even(op: Long)
    ensures EvenDelta(DecodeBranch20(op))
  {}

  lemma TwoFits20()
    ensures Fits20(2) && EvenDelta(2)
  {}

  lemma Skip2From4(a: Addr)
    ensures BranchTarget(a, 2) == Plus(Plus(a, 4), 2)
  {}

  lemma BCondWStep(other: OtherSemantics, dst: Addr, op: Long, delta: bv32, c: Core)
    requires IsBCondW(op) && Fits20(delta) && EvenDelta(delta)
    requires Fetch(c.mem, dst) == High(EncodeBranch20(op, delta)) && Fetch(c.mem, Plus(dst, 2)) == Low(EncodeBranch20(op, delta))
    ensures Step(other, State(dst, c)) == After(Exec(other, BCond(Condition20(op), delta), dst, c), dst, 4)
  {
    hide Fetch, IsBCondW, Fits20, EvenDelta, EncodeBranch20, Condition20, Decode, DecodeShort, IsLong, Exec, Step, Plus, High, Low;
    BCondWDecodes(op, delta);
    StepLong(other, dst, c, EncodeBranch20(op, delta), BCond(Condition20(op), delta));
  }

  lemma BCondWSimulates(other: OtherSemantics, src: Addr, dst: Addr, d: bv32, op: Long, c: Core)
    requires IsBCondW(op) && Even(src) && PoolAhead(dst, d)
    requires Placed(c.mem, dst, Plus(dst, d), CopyBCondW(src, dst, op, Plus(dst, d)))
    ensures Simulates(other, BCond(Condition20(op), DecodeBranch20(op)), src, dst, CopyBCondW(src, dst, op, Plus(dst, d)), c)
  {
    hide Fetch, Plus, Minus, ReadPc, BranchTarget, IsBCondW, Fits20, Even, EvenDelta, EncodeBranch20, Condition20, DecodeBranch20, Step, Exec,
         EmitLongBranch, PoolAhead, Ahead, Reaches, End, CodeAt, Expected, OVER, Less, Halves, High, Low;
    var target, pool, delta := BranchTarget(src, DecodeBranch20(op)), Plus(dst, d), DecodeBranch20(op);
    Delta20Even(op);
    BranchTargetEven(src, delta);
    PoolAheadEven(dst, d);
    if Fits20(Minus(target, ReadPc(dst))) {
      NewDeltaEven(target, dst);
      LongAlone(c.mem, dst, EncodeBranch20(op, Minus(target, ReadPc(dst))));
      BCondWStep(other, dst, op, Minus(target, ReadPc(dst)), c);
      BCondNear(other, src, dst, Condition20(op), delta, 4, target, c);
      ReachNow(other, State(dst, c), Step(other, State(dst, c)));
    } else {
      Plus42(dst);
      var long := EmitLongBranch(Plus(dst, 6), target, pool);
      TwoFits20();
      assert Halves(EncodeBranch20(op, 2)) + [OVER] + long.code == Halves(EncodeBranch20(op, 2)) + ([OVER] + long.code);
      LongCode(c.mem, dst, EncodeBranch20(op, 2), [OVER] + long.code);
      ShortCode(c.mem, Plus(dst, 4), OVER, long.code);
      BCondWStep(other, dst, op, 2, c);
      AheadFrom(dst, d, 6);
      Skip2From4(dst);
      BCondLong(other, src, dst, Less(d, 6), pool, Condition20(op), delta, 4, 2, target, c);
    }
  }

  // ------------------------------------------------------------------------ B and BL

  lemma Delta11Even(op: Half)
    ensures EvenDelta(DecodeBranch11(op))
  {}

  lemma Delta24Even(op: Long)
    ensures EvenDelta(DecodeBranch24(op))
  {}

  lemma BStep(other: OtherSemantics, dst: Addr, op: Half, target: Addr, c: Core)
    requires IsB(op) && Fits11(Minus(target, ReadPc(dst))) && Even(target) && Even(dst)
    requires Fetch(c.mem, dst) == EncodeBranch11(op, Minus(target, ReadPc(dst)))
    ensures Step(other, State(dst, c)) == Thumb(State(target, c))
  {
    hide Fetch, Plus, Minus, ReadPc, BranchTarget, IsB, Fits11, EvenDelta, Even, EncodeBranch11, Decode, DecodeShort, IsLong, Step;
    var delta := Minus(target, ReadPc(dst));
    NewDeltaEven(target, dst);
    BDecodes(op, delta);
    StepShort(other, dst, c, Fetch(c.mem, dst), B(delta));
    BranchBack(dst, target);
  }

  lemma BWStep(other: OtherSemantics, dst: Addr, op: Long, target: Addr, c: Core)
    requires IsBW(op) && Fits24(Minus(target, ReadPc(dst))) && Even(target) && Even(dst)
    requires CodeAt(c.mem, dst, Halves(EncodeBranch24(op, Minus(target, ReadPc(dst)))))
    ensures Step(other, State(dst, c)) == Thumb(State(target, c))
  {
    hide Fetch, Plus, Minus, ReadPc, BranchTarget, IsBW, Fits24, EvenDelta, Even, EncodeBranch24, Decode, DecodeShort, IsLong, Step, High, Low, CodeAt, Halves;
    var delta := Minus(target, ReadPc(dst));
    NewDeltaEven(target, dst);
    LongAlone(c.mem, dst, EncodeBranch24(op, delta));
    BWDecodes(op, delta);
    StepLong(other, dst, c, EncodeBranch24(op, delta), B(delta));
    BranchBack(dst, target);
  }

  lemma BSimulates(other: OtherSemantics, src: Addr, dst: Addr, d: bv32, op: Half, c: Core)
    requires IsB(op) && Even(src) && PoolAhead(dst, d)
    requires Placed(c.mem, dst, Plus(dst, d), CopyB(src, dst, op, Plus(dst, d)))
    ensures Simulates(other, B(DecodeBranch11(op)), src, dst, CopyB(src, dst, op, Plus(dst, d)), c)
  {
    hide Fetch, Plus, Minus, ReadPc, BranchTarget, IsB, IsBW, Fits11, Fits24, Even, EvenDelta, EncodeBranch11, EncodeBranch24, DecodeBranch11,
         Step, EmitLongBranch, PoolAhead, Ahead, Reaches, End, CodeAt, Halves, B_W;
    var target := BranchTarget(src, DecodeBranch11(op));
    Delta11Even(op);
    BranchTargetEven(src, DecodeBranch11(op));
    PoolAheadEven(dst, d);
    if Fits11(Minus(target, ReadPc(dst))) {
      ShortAlone(c.mem, dst, EncodeBranch11(op, Minus(target, ReadPc(dst))));
      BStep(other, dst, op, target, c);
    } else if Fits24(Minus(target, ReadPc(dst))) {
      BwIsBW();
      BWStep(other, dst, B_W, target, c);
    } else {
      AheadAtOnce(dst, d);
      LongBranchRuns(other, dst, d, target, Plus(dst, d), c);
    }
    ReachNow(other, State(dst, c), Thumb(State(target, c)));
  }

  lemma BWSimulates(other: OtherSemantics, src: Addr, dst: Addr, d: bv32, op: Long, c: Core)
    requires IsBW(op) && Even(src) && PoolAhead(dst, d)
    requires Placed(c.mem, dst, Plus(dst, d), CopyBW(src, dst, op, Plus(dst, d)))
    ensures Simulates(other, B(DecodeBranch24(op)), src, dst, CopyBW(src, dst, op, Plus(dst, d)), c)
  {
    hide Fetch, Plus, Minus, ReadPc, BranchTarget, IsBW, Fits24, Even, EvenDelta, EncodeBranch24, DecodeBranch24,
         Step, EmitLongBranch, PoolAhead, Ahead, Reaches, End, CodeAt, Halves;
    var target := BranchTarget(src, DecodeBranch24(op));
    Delta24Even(op);
    BranchTargetEven(src, DecodeBranch24(op));
    PoolAheadEven(dst, d);
    if Fits24(Minus(target, ReadPc(dst))) {
      BWStep(other, dst, op, target, c);
    } else {
      AheadAtOnce(dst, d);
      LongBranchRuns(other, dst, d, target, Plus(dst, d), c);
    }
    ReachNow(other, State(dst, c), Thumb(State(target, c)));
  }

  lemma SetRTwice(c: Core, r: Reg, v: bv32, w: bv32)
    ensures SetR(SetR(c, r, v), r, w) == SetR(c, r, w) && GetR(SetR(c, r, v), r) == v
  {
    assert c.r[r as nat := v][r as nat := w] == c.r[r as nat := w];
  }

  lemma LrIsNotPc()
    ensures LR != PC
  {}

  lemma BlxLrRuns(other: OtherSemantics, a: Addr, target: Addr, c: Core)
    requires Fetch(c.mem, a) == BLX_LR && Even(target)
    ensures Step(other, State(a, SetR(c, LR, WithBit0(target)))) == Thumb(State(target, SetR(c, LR, WithBit0(Plus(a, 2)))))
  {
    var b := SetR(c, LR, WithBit0(target));
    assert b.mem == c.mem;
    hide Fetch, Plus, WithBit0, WithoutBit0, Bit0, Even, Decode, DecodeShort, IsLong, Step, SetR, GetR, LR, BLX_LR;
    BlxLrDecodes();
    StepShort(other, a, b, Fetch(b.mem, a), Blx(LR));
    SetRTwice(c, LR, WithBit0(target), WithBit0(Plus(a, 2)));
    WithBit0Goes(target);
  }

  /** BL returns to the end of the moved code. */
  lemma BlSimulates(other: OtherSemantics, src: Addr, dst: Addr, d: bv32, op: Long, c: Core)
    requires IsBl(op) && Even(src) && PoolAhead(dst, d)
    requires Placed(c.mem, dst, Plus(dst, d), CopyBl(src, dst, op, Plus(dst, d)))
    ensures Simulates(other, Bl(DecodeBranch24(op)), src, dst, CopyBl(src, dst, op, Plus(dst, d)), c)
  {
    hide Fetch, Plus, BranchTarget, IsBl, Even, EvenDelta, DecodeBranch24, EmitLiteralLoad12, WithBit0, Load, SetR,
         Step, PoolAhead, Ahead, Reaches, End, CodeAt, Halves, BLX_LR, LR, PC;
    var target, pool := BranchTarget(src, DecodeBranch24(op)), Plus(dst, d);
    Delta24Even(op);
    BranchTargetEven(src, DecodeBranch24(op));
    var w := EmitLiteralLoad12(dst, LR, pool);
    LongCode(c.mem, dst, w, [BLX_LR]);
    ShortAlone(c.mem, Plus(dst, 4), BLX_LR);
    LongAlone(c.mem, dst, w);
    AheadAtOnce(dst, d);
    LiteralLoadRuns(other, dst, d, LR, c);
    LrIsNotPc();
    BlxLrRuns(other, Plus(dst, 4), target, c);
    var b := SetR(c, LR, WithBit0(target));
    var m := Thumb(State(target, SetR(c, LR, WithBit0(Plus(Plus(dst, 4), 2)))));
    ReachNow(other, State(Plus(dst, 4), b), m);
    ReachThen(other, State(dst, c), State(Plus(dst, 4), b), m);
    SetRTwice(c, LR, WithBit0(Plus(src, 4)), WithBit0(Plus(Plus(dst, 4), 2)));
  }

  // ------------------------------------------------------------------- Literal loads

  lemma LiteralBase(src: Addr)
    ensures ReadPc(Align4(src)) == (src + 4) & 0xffff_fffc
  {}

  lemma LiteralAddressPlus(src: Addr, off: bv32)
    ensures LiteralAddress(src, off) == Plus((src + 4) & 0xffff_fffc, off)
  {}

  lemma LiteralTarget(src: Addr, off: bv32)
    ensures Plus(ReadPc(Align4(src)), off) == LiteralAddress(src, off)
  {
    hide *;
    LiteralBase(src);
    LiteralAddressPlus(src, off);
  }

  lemma LowIsNotPc(reg: Reg)
    requires IsLowReg(reg)
    ensures reg != PC
  {}

  /** The load through the register that holds the literal's address. */
  lemma RegisterLoadRuns(other: OtherSemantics, a: Addr, reg: Reg, x: Addr, c: Core)
    requires reg != PC && CodeAt(c.mem, a, EmitImmediateRegisterLoad(reg))
    ensures Step(other, State(a, SetR(c, reg, x))) == Thumb(State(End(a, EmitImmediateRegisterLoad(reg)), SetR(c, reg, Load(c.mem, x))))
  {
    var b := SetR(c, reg, x);
    assert b.mem == c.mem;
    SetRTwice(c, reg, x, Load(c.mem, x));
    hide Fetch, Plus, Decode, DecodeShort, IsLong, Step, SetR, GetR, PC, Load, LdrNoOffset, LdrNoOffsetW, IsLowReg, CodeAt, End, High, Low, Halves;
    if IsLowReg(reg) {
      ShortAlone(c.mem, a, LdrNoOffset(reg));
      LdrNoOffsetDecodes(reg);
      StepShort(other, a, b, Fetch(b.mem, a), LdrRegister(reg, reg));
    } else {
      LongAlone(c.mem, a, LdrNoOffsetW(reg));
      LdrNoOffsetWDecodes(reg);
      StepLong(other, a, b, LdrNoOffsetW(reg), LdrRegister(reg, reg));
    }
  }

  lemma LiteralSimulates(other: OtherSemantics, src: Addr, dst: Addr, d: bv32, reg: Reg, off: bv32, c: Core)
    requires reg != PC && PoolAhead(dst, d)
    requires Placed(c.mem, dst, Plus(dst, d), EmitLongLiteralLoad(dst, reg, Plus(ReadPc(Align4(src)), off), Plus(dst, d)))
    ensures Simulates(other, LdrLiteral(reg, off), src, dst,
                      EmitLongLiteralLoad(dst, reg, Plus(ReadPc(Align4(src)), off), Plus(dst, d)), c)
  {
    hide Fetch, Plus, ReadPc, Align4, LiteralAddress, EmitLiteralLoad12, EmitImmediateRegisterLoad, Load, SetR,
         Step, PoolAhead, Ahead, Reaches, End, CodeAt, Halves, PC;
    var x, pool := Plus(ReadPc(Align4(src)), off), Plus(dst, d);
    LiteralTarget(src, off);
    var w := EmitLiteralLoad12(dst, reg, pool);
    LongCode(c.mem, dst, w, EmitImmediateRegisterLoad(reg));
    LongAlone(c.mem, dst, w);
    AheadAtOnce(dst, d);
    LiteralLoadRuns(other, dst, d, reg, c);
    RegisterLoadRuns(other, Plus(dst, 4), reg, x, c);
    var m := Thumb(State(End(dst, Halves(w) + EmitImmediateRegisterLoad(reg)), SetR(c, reg, Load(c.mem, x))));
    ReachNow(other, State(Plus(dst, 4), SetR(c, reg, x)), m);
    ReachThen(other, State(dst, c), State(Plus(dst, 4), SetR(c, reg, x)), m);
  }

  // ---------------------------------------------------------------------- Main theorem

  /** IT, of which nothing is written. */
  predicate IsIt(h: Half) { h & 0xff00 == 0xbf00 && h & 0xf != 0 }

  /** A table branch whose table follows it. */
  predicate IsTableBranchHere(w: Long) { w & 0xffff_ffe0 == 0xe8df_f000 }

  /** The instructions that the code takes for what they are: not a hint or system instruction that looks
    * like B<c>.W, and of the literal loads the word loads with an offset that is added and a register
    * other than the program counter. What else uses the program counter is copied as if it did not; see
    * `PcKept`.
    */
  predicate Understood(h: Half, g: Half) { if IsLong(h) then UnderstoodLong(Join(h, g)) else !IsIt(h) }

  /** A word load into a register, with an offset that is added or zero. */
  predicate UnderstoodLiteral(w: Long) { IsLdrLiteralW(w) && LiteralRegW(w) != PC && (Adds(w) || Literal12(w) == 0) }

  predicate UnderstoodLong(w: Long) {
    && !IsTableBranchHere(w)
    && (LooksLikeBCondW(w) ==> IsBCondW(w))
    && (LooksLikeLiteral(w) ==> UnderstoodLiteral(w))
  }

  /** An instruction that uses the program counter reads the same there after the move: one that aligns it
    * stays within its word, any other stays where it is.
    */
  predicate PcKept(src: Addr, dst: Addr, i: Instr) {
    i.UsesPc? ==> if AlignsPc(i.use) then Align4(src) == Align4(dst) else src == dst
  }

  lemma AlignedReadPc(a: Addr)
    ensures Align4(ReadPc(a)) == (a + 4) & 0xffff_fffc
  {}

  lemma AlignedPc(a: Addr)
    ensures Align4(ReadPc(a)) == ReadPc(Align4(a))
  {
    LiteralBase(a);
    AlignedReadPc(a);
    hide Align4, ReadPc;
  }

  lemma PcKeptAligned(src: Addr, dst: Addr)
    ensures Align4(ReadPc(src)) == Align4(ReadPc(dst)) <==> Align4(src) == Align4(dst)
  {
    AlignedPc(src);
    AlignedPc(dst);
    PcKeptPlain(Align4(src), Align4(dst));
    hide Align4, ReadPc;
  }

  lemma PcKeptPlain(src: Addr, dst: Addr)
    ensures ReadPc(src) == ReadPc(dst) <==> src == dst
  {}

  lemma PcKeptIs(src: Addr, dst: Addr, u: PcUse)
    ensures PcKept(src, dst, UsesPc(u)) <==> PcValue(u, src) == PcValue(u, dst)
  {
    PcKeptAligned(src, dst);
    PcKeptPlain(src, dst);
    hide Align4, ReadPc;
  }

  /** An instruction that is copied: it reads the same program counter or none, but may link. */
  predicate Copies(i: Instr) { i.Blx? || i.LdrRegister? || i.UsesPc? || i.Other? }

  lemma CopiedUse(other: OtherSemantics, u: PcUse, src: Addr, dst: Addr, size: bv32, c: Core)
    requires PcKept(src, dst, UsesPc(u)) && !u.BlxLabel?
    ensures After(Exec(other, UsesPc(u), dst, c), dst, size) == Expected(other, UsesPc(u), src, Plus(dst, size), c)
  {
    PcKeptIs(src, dst, u);
    hide Fetch, Plus, Load, GetR, SetR, SetRegister, WithBit0, Bit0, WithoutBit0, LR, PC, PcValue, PcKept, Align4, ReadPc;
    var v := PcValue(u, src);
    assert UsePc(other, u, v, src, c) == UsePc(other, u, v, dst, c);
  }

  lemma CopiedBlx(other: OtherSemantics, u: PcUse, src: Addr, dst: Addr, c: Core)
    requires PcKept(src, dst, UsesPc(u)) && u.BlxLabel?
    ensures After(Exec(other, UsesPc(u), dst, c), dst, 4) == Expected(other, UsesPc(u), src, Plus(dst, 4), c)
  {
    PcKeptIs(src, dst, u);
    SetRTwice(c, LR, WithBit0(Plus(src, 4)), WithBit0(Plus(dst, 4)));
    hide Plus, SetR, WithBit0, LR, PcValue, PcKept, Align4, ReadPc;
  }

  lemma CopiedAnywhere(other: OtherSemantics, i: Instr, src: Addr, dst: Addr, size: bv32, c: Core)
    requires (i.Blx? && size == 2) || i.LdrRegister? || i.Other?
    ensures After(Exec(other, i, dst, c), dst, size) == Expected(other, i, src, Plus(dst, size), c)
  {
    if i.Blx? { SetRTwice(c, LR, WithBit0(Plus(src, 2)), WithBit0(Plus(dst, 2))); }
    hide Fetch, Plus, Load, GetR, SetR, UsePc, WithBit0, Bit0, WithoutBit0, LR, PC;
  }

  lemma CopiedExec(other: OtherSemantics, i: Instr, src: Addr, dst: Addr, size: bv32, c: Core)
    requires Copies(i) && PcKept(src, dst, i) && (i.Blx? ==> size == 2) && (i.UsesPc? && i.use.BlxLabel? ==> size == 4)
    ensures After(Exec(other, i, dst, c), dst, size) == Expected(other, i, src, Plus(dst, size), c)
  {
    hide After, Exec, Expected, Plus, PcKept;
    if i.UsesPc? {
      if i.use.BlxLabel? { CopiedBlx(other, i.use, src, dst, c); } else { CopiedUse(other, i.use, src, dst, size, c); }
    } else {
      CopiedAnywhere(other, i, src, dst, size, c);
    }
  }

  lemma ShortUses(h: Half)
    ensures DecodeShort(h).UsesPc? ==> !DecodeShort(h).use.BlxLabel?
  {
    hide IsCbz, IsBCond, IsB, IsBlx, IsLdrLiteral, IsLdrNoOffset, UsesPcShort, IsAdr, IsAddPc, IsJumpAdd, IsMovPc, DecodeBranch5, DecodeBranch8, DecodeBranch11,
         CbzNz, LowReg, Condition8, BlxReg, LiteralReg, Literal8, BaseReg, HighReg;
  }

  lemma CopiedShort(other: OtherSemantics, src: Addr, dst: Addr, h: Half, c: Core)
    requires !IsLong(h) && Copies(DecodeShort(h)) && PcKept(src, dst, DecodeShort(h)) && Fetch(c.mem, dst) == h
    ensures Simulates(other, DecodeShort(h), src, dst, Copied([h], []), c)
  {
    ShortUses(h);
    hide Fetch, IsLong, DecodeShort, Exec, Step, Expected, Plus, End, CodeAt, Reaches, Copies, PcKept;
    StepShort(other, dst, c, h, DecodeShort(h));
    CopiedExec(other, DecodeShort(h), src, dst, 2, c);
    ShortAlone(c.mem, dst, h);
    ReachNow(other, State(dst, c), Step(other, State(dst, c)));
  }

  lemma NotBlx(w: Long)
    ensures !DecodeLong(w).Blx?
  {
    hide Fetch, IsBCondW, IsBW, IsBl, IsLdrLiteralW, IsLdrNoOffsetW, Condition20, DecodeBranch20, DecodeBranch24, LiteralRegW, LiteralOffset, BaseRegW;
  }

  lemma CopiedLong(other: OtherSemantics, src: Addr, dst: Addr, w: Long, c: Core)
    requires IsLong(High(w)) && Decode(High(w), Low(w)) == DecodeLong(w) && Copies(DecodeLong(w)) && PcKept(src, dst, DecodeLong(w))
    requires CodeAt(c.mem, dst, Halves(w))
    ensures Simulates(other, DecodeLong(w), src, dst, Copied(Halves(w), []), c)
  {
    hide Fetch, IsLong, Decode, DecodeLong, Exec, Step, Expected, Plus, End, CodeAt, Reaches, Copies, PcKept, High, Low, Halves;
    LongAlone(c.mem, dst, w);
    StepLong(other, dst, c, w, DecodeLong(w));
    NotBlx(w);
    CopiedExec(other, DecodeLong(w), src, dst, 4, c);
    ReachNow(other, State(dst, c), Step(other, State(dst, c)));
  }

  lemma BCondAlone(h: Half)
    requires IsBCond(h)
    ensures !IsCbz(h)
  {}

  lemma BAlone(h: Half)
    requires IsB(h)
    ensures !IsCbz(h) && !IsBCond(h)
  {}

  lemma LiteralAlone(h: Half)
    requires IsLdrLiteral(h)
    ensures !IsCbz(h) && !IsBCond(h) && !IsB(h) && !IsBlx(h)
  {}

  lemma LiteralRegLow(h: Half)
    ensures LiteralReg(h) != PC
  {}

  lemma ShortSimulates(other: OtherSemantics, src: Addr, dst: Addr, d: bv32, h: Half, c: Core)
    requires Even(src) && PoolAhead(dst, d) && !IsLong(h) && !IsIt(h) && PcKept(src, dst, DecodeShort(h))
    requires Placed(c.mem, dst, Plus(dst, d), CopyShort(src, dst, h, Plus(dst, d)))
    ensures Simulates(other, DecodeShort(h), src, dst, CopyShort(src, dst, h, Plus(dst, d)), c)
  {
    hide Fetch, IsCbz, IsBCond, IsB, IsBlx, IsLdrLiteral, IsLdrNoOffset, IsLong, CbzNz, LowReg, Condition8, LiteralReg, Literal8, BlxReg, BaseReg,
         DecodeBranch5, DecodeBranch8, DecodeBranch11, CopyCbz, CopyBCond, CopyB, EmitLongLiteralLoad, Plus, Even, PoolAhead, CodeAt,
         Simulates, ReadPc, Align4, PC, UsesPcShort, ShortUse, PcKept;
    var pool := Plus(dst, d);
    if IsCbz(h) {
      CbzSimulates(other, src, dst, d, h, c);
    } else if IsBCond(h) {
      BCondSimulates(other, src, dst, d, h, c);
    } else if IsB(h) {
      BSimulates(other, src, dst, d, h, c);
    } else if IsLdrLiteral(h) {
      LiteralAlone(h);
      LiteralRegLow(h);
      LiteralSimulates(other, src, dst, d, LiteralReg(h), Literal8(h), c);
    } else {
      ShortAlone(c.mem, dst, h);
      CopiedShort(other, src, dst, h, c);
    }
  }

  lemma LongForms(w: Long)
    ensures IsBCondW(w) ==> LooksLikeBCondW(w)
    ensures LooksLikeBCondW(w) ==> !IsBW(w) && !IsBl(w)
    ensures IsBW(w) ==> !IsBl(w)
  {}

  lemma LiteralForms(w: Long)
    ensures IsLdrLiteralW(w) ==> LooksLikeLiteral(w)
    ensures IsNarrowLiteral(w) ==> LooksLikeLiteral(w)
    ensures LooksLikeLiteral(w) ==> !IsBCondW(w) && !IsBW(w) && !IsBl(w)
  {}

  lemma UnderstoodOffset(w: Long)
    requires Adds(w) || Literal12(w) == 0
    ensures LiteralOffset(w) == Literal12(w)
  {
    ZeroNegated();
    hide Adds, Literal12, Negated;
  }

  lemma ZeroNegated()
    ensures Negated(0) == 0
  {}

  lemma LongSimulates(other: OtherSemantics, src: Addr, dst: Addr, d: bv32, w: Long, c: Core)
    requires Even(src) && PoolAhead(dst, d) && UnderstoodLong(w) && IsLong(High(w)) && PcKept(src, dst, DecodeLong(w))
    requires Placed(c.mem, dst, Plus(dst, d), CopyLong(src, dst, w, Plus(dst, d)))
    ensures Simulates(other, DecodeLong(w), src, dst, CopyLong(src, dst, w, Plus(dst, d)), c)
  {
    hide Fetch, IsBCondW, IsBW, IsBl, IsLdrLiteralW, IsNarrowLiteral, IsHalf, IsSigned, IsLdrNoOffsetW, IsLong, Condition20, LiteralRegW, BaseRegW, Literal12, Adds, LiteralOffset, LooksLikeBCondW,
         LooksLikeLiteral, DecodeBranch20, DecodeBranch24, CopyBCondW, CopyBW, CopyBl, EmitLongLiteralLoad, Plus, Even, PoolAhead, CodeAt,
         Simulates, ReadPc, Align4, PC, High, Low, Halves, Negated, Join, IsTableBranchHere, UsesPcLong, LongUse, PcKept;
    LongForms(w);
    LiteralForms(w);
    if LooksLikeLiteral(w) {
      UnderstoodOffset(w);
      LiteralSimulates(other, src, dst, d, LiteralRegW(w), Literal12(w), c);
    } else if LooksLikeBCondW(w) {
      BCondWSimulates(other, src, dst, d, w, c);
    } else if IsBW(w) {
      BWSimulates(other, src, dst, d, w, c);
    } else if IsBl(w) {
      BlSimulates(other, src, dst, d, w, c);
    } else {
      JoinHalves(w);
      CopiedLong(other, src, dst, w, c);
    }
  }

  lemma HalvesOfJoin(h: Half, g: Half)
    ensures High(Join(h, g)) == h && Low(Join(h, g)) == g
  {}

  /** Every Thumb-2 instruction that the code takes for what it is, outside IT blocks, does at its new
    * place, for both alignments of it, what it did at the old one, if it is not copied with another program
    * counter to use.
    */
  lemma MoveSimulates(other: OtherSemantics, src: Addr, dst: Addr, d: bv32, h: Half, g: Half, c: Core)
    requires Even(src) && PoolAhead(dst, d) && Understood(h, g) && PcKept(src, dst, Decode(h, g))
    requires Placed(c.mem, dst, Plus(dst, d), CopyInstruction(src, dst, h, g, Plus(dst, d)))
    ensures Simulates(other, Decode(h, g), src, dst, CopyInstruction(src, dst, h, g, Plus(dst, d)), c)
  {
    hide Fetch, IsLong, Join, High, Low, DecodeLong, DecodeShort, CopyLong, CopyShort, Placed, Plus, Even, PoolAhead, UnderstoodLong, IsIt, Simulates, PcKept;
    if IsLong(h) {
      HalvesOfJoin(h, g);
      LongSimulates(other, src, dst, d, Join(h, g), c);
    } else {
      ShortSimulates(other, src, dst, d, h, c);
    }
  }

  // ------------------------------------------------------------- What is not understood

  lemma Delta20Fits(w: Long)
    ensures Fits20(DecodeBranch20(w))
  {}

  lemma Place20Extended(w: Long, t: bv32)
    ensures Place20(w, Extend20(t)) == Place20(w, t)
  {}

  lemma Place20Raw20(w: Long)
    ensures Place20(w, Raw20(w)) == w
  {}

  lemma Place20Same(w: Long)
    ensures Place20(w, DecodeBranch20(w)) == w
  {
    hide Fetch, Place20, Extend20, Raw20;
    Place20Extended(w, Raw20(w));
    Place20Raw20(w);
  }

  function Origin(target: Addr, delta: bv32): Addr { target - delta - 4 }

  lemma OriginRaw(src: Addr, delta: bv32)
    ensures Origin(src + 4 + delta, delta) == src
  {}

  lemma BranchTargetIs(src: Addr, delta: bv32)
    ensures BranchTarget(src, delta) == src + 4 + delta
  {
    assert ReadPc(src) == src + 4;
    assert Plus(src + 4, delta) == src + 4 + delta;
  }

  lemma OriginIs(src: Addr, delta: bv32)
    ensures Origin(BranchTarget(src, delta), delta) == src
  {
    hide *;
    OriginRaw(src, delta);
    BranchTargetIs(src, delta);
  }

  lemma FromHere(at: Addr, delta: bv32)
    ensures Minus(Plus(at, delta), at) == delta
  {
    assert Plus(at, delta) == at + delta;
    assert Minus(at + delta, at) == at + delta - at;
  }

  lemma MovedDelta(src: Addr, dst: Addr, delta: bv32)
    ensures Minus(BranchTarget(src, delta), ReadPc(dst)) == delta <==> src == dst
  {
    hide Fetch, Plus, Minus, ReadPc, Origin;
    FromHere(ReadPc(src), delta);
    BranchBack(dst, BranchTarget(src, delta));
    OriginIs(src, delta);
    OriginIs(dst, delta);
  }

  lemma ShorterThanLong(w: Long, h: Half, k: seq<Half>)
    ensures Halves(w) != Halves(w) + [h] + k && |Halves(w)| == 2
  {}

  /** A hint or system instruction that looks like B<c>.W is not copied but re-encoded as a branch, and is
    * itself after the move only if there was no move.
    */
  lemma HintsAreChanged(src: Addr, dst: Addr, w: Long, pool: Addr)
    requires LooksLikeBCondW(w) && !IsBCondW(w) && Even(src) && Even(dst)
    ensures CopyLong(src, dst, w, pool).code == Halves(w) <==> src == dst
  {
    LiteralForms(w);
    assert !LooksLikeLiteral(w) by { NotLiteral(w); }
    hide Fetch, LooksLikeBCondW, LooksLikeLiteral, IsBCondW, Even, EvenDelta, Plus, Minus, ReadPc, BranchTarget, Fits20, Place20, DecodeBranch20,
         High, Low, EmitLongBranch, OVER;
    var delta, target := DecodeBranch20(w), BranchTarget(src, DecodeBranch20(w));
    var newDelta := Minus(target, ReadPc(dst));
    Delta20Even(w);
    BranchTargetEven(src, delta);
    NewDeltaEven(target, dst);
    MovedDelta(src, dst, delta);
    Delta20Fits(w);
    Place20Same(w);
    if Fits20(newDelta) {
      Branch20RoundTrip(w, newDelta);
      JoinHalves(w);
      JoinHalves(Place20(w, newDelta));
    }
  }

  lemma NotLiteral(w: Long)
    requires LooksLikeBCondW(w)
    ensures !LooksLikeLiteral(w)
  {}

  /** A literal load, or a preload hint, whose register field is the program counter becomes a jump to the
    * address of the literal.
    */
  lemma PcLiteralJumps(other: OtherSemantics, src: Addr, dst: Addr, d: bv32, w: Long, c: Core)
    requires LooksLikeLiteral(w) && LiteralRegW(w) == PC && PoolAhead(dst, d)
    requires Placed(c.mem, dst, Plus(dst, d), CopyLong(src, dst, w, Plus(dst, d)))
    ensures Step(other, State(dst, c)) == After(Exchange(Plus(ReadPc(Align4(src)), Literal12(w)), c), dst, 4)
  {
    hide Fetch, LooksLikeLiteral, LiteralRegW, Literal12, PoolAhead, Plus, ReadPc, Align4, EmitLiteralLoad12, Halves, CodeAt, Step, Ahead, Load, PC, Exchange;
    var pool := Plus(dst, d);
    var word := Halves(EmitLiteralLoad12(dst, PC, pool));
    assert word + [] == word;
    AheadAtOnce(dst, d);
    LiteralLoadRuns(other, dst, d, PC, c);
  }

  /** The sign of a literal's offset is lost: the address is the literal's exactly for offsets that are
    * added, or zero.
    */
  lemma OffsetsAreAdded(src: Addr, w: Long)
    ensures Plus(ReadPc(Align4(src)), Literal12(w)) == LiteralAddress(src, LiteralOffset(w)) <==> Adds(w) || Literal12(w) == 0
  {
    LiteralTarget(src, Literal12(w));
    var base := (src + 4) & 0xffff_fffc;
    LiteralAddressPlus(src, Literal12(w));
    LiteralAddressPlus(src, LiteralOffset(w));
    hide Fetch, Plus, LiteralAddress, Adds, Literal12, Negated;
    FromHere(base, Literal12(w));
    FromHere(base, LiteralOffset(w));
    NegatedDiffers(w);
  }

  lemma NegatedDiffers(w: Long)
    ensures Literal12(w) == Negated(Literal12(w)) <==> Literal12(w) == 0
  {}
}
