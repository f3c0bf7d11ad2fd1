/** Exactly which Thumb-2 instructions survive a move (detours/src/disasm.cpp:2864-3600): those that the code
  * takes for what they are and, of the ones it copies although they use the program counter, those that
  * find the same value there. For every other one there is a state in which the copy does something else.
  */
module ThumbMoves {
  import opened ThumbEncoding
  import opened ThumbMachine
  import opened ThumbCopy
  import opened ThumbBits
  import opened ThumbSimulation
  import opened ThumbExactness

  /** A machine that has stopped, or that stays where it is. */
  ghost predicate Stuck(other: OtherSemantics, m: Machine) { m.Thumb? ==> Step(other, m.state) == m }

  lemma NeverReached(other: OtherSemantics, s: State, m: Machine, m1: Machine)
    requires Step(other, s) == m && Stuck(other, m) && m != m1
    ensures !Reaches(other, s, m1)
  {
    hide Step, Reaches;
    match m
    case Thumb(t) => OneStepAway(other, s, t, m1);
    case Arm(t) => LeavesAway(other, s, t, m1);
  }

  // ------------------------------------------------------------------------- A memory

  function Bytes(h0: Half, h1: Half, h2: Half, o: bv32): bv8 {
    if o == 0 then LowByte(h0) else if o == 1 then HighByte(h0)
    else if o == 2 then LowByte(h1) else if o == 3 then HighByte(h1)
    else if o == 4 then LowByte(h2) else if o == 5 then HighByte(h2)
    else 0
  }

  /** Three halfwords of code, zeros, and a byte that differs. */
  function Spot(h0: Half, h1: Half, h2: Half, t: bv32, x: bv8): bv32 -> bv8 { o => if o == t then x else Bytes(h0, h1, h2, o) }

  lemma SpotBytes(h0: Half, h1: Half, h2: Half, t: bv32, x: bv8)
    requires 6 <= t
    ensures var s := Spot(h0, h1, h2, t, x);
      && s(0) == LowByte(h0) && s(1) == HighByte(h0) && s(2) == LowByte(h1) && s(3) == HighByte(h1) && s(4) == LowByte(h2) && s(5) == HighByte(h2)
  {
    hide LowByte, HighByte;
  }

  /** The code is in memory, and behind it or in its place a branch to itself. */
  predicate CodeHere(m: Memory, dst: Addr, h0: Half, h1: Half, h2: Half) {
    Fetch(m, dst) == h0 && Fetch(m, Plus(dst, 2)) == h1 && Fetch(m, Plus(dst, 4)) == h2
  }

  lemma SpotCode(dst: Addr, h0: Half, h1: Half, h2: Half, t: bv32, x: bv8)
    requires 6 <= t
    ensures CodeHere(ByOffset(dst, Spot(h0, h1, h2, t, x)), dst, h0, h1, h2)
  {
    hide Plus, Fetch, ByOffset, Pair, LowByte, HighByte, Spot;
    var s := Spot(h0, h1, h2, t, x);
    SpotBytes(h0, h1, h2, t, x);
    PairOfBytes(h0);
    PairOfBytes(h1);
    PairOfBytes(h2);
    PlusZero(dst);
    FetchByOffset(dst, s, 0);
    FetchByOffset(dst, s, 2);
    FetchByOffset(dst, s, 4);
  }

  lemma SpotAt(dst: Addr, h0: Half, h1: Half, h2: Half, t: bv32, x: bv8, o: bv32)
    ensures ByOffset(dst, Spot(h0, h1, h2, t, x))(Plus(dst, o)) == if o == t then x else Bytes(h0, h1, h2, o)
  {
    FromHere(dst, o);
    hide Plus, Minus, Bytes;
  }

  function LowestByte(v: bv32): bv8 { (v & 0xff) as bv8 }
  function HighestByte(v: bv32): bv8 { (v >> 24) as bv8 }

  lemma LowestOfJoin(b0: bv8, b1: bv8, g: Half)
    ensures LowestByte(Join(g, Pair(b0, b1))) == b0
  {}

  lemma HighestOfJoin(b2: bv8, b3: bv8, h: Half)
    ensures HighestByte(Join(Pair(b2, b3), h)) == b3
  {}

  lemma LoadBytes(m: Memory, a: Addr)
    ensures LowestByte(Load(m, a)) == m(a) && HighestByte(Load(m, a)) == m(Plus(a, 3))
  {
    hide LowestByte, HighestByte, Join, Pair, Plus;
    LowestOfJoin(m(a), m(Plus(a, 1)), Fetch(m, Plus(a, 2)));
    HighestOfJoin(m(Plus(a, 2)), m(Plus(Plus(a, 2), 1)), Fetch(m, a));
    PlusThree(a);
  }

  lemma Another(b: bv8)
    ensures b + 1 != b
  {}

  function Next8(b: bv8): bv8 { b + 1 }

  lemma Next8Differs(b: bv8)
    ensures Next8(b) != b
  {
    Another(b);
  }

  lemma LowDiffers(dst: Addr, h0: Half, h1: Half, h2: Half, e: bv32, f: bv32) returns (m: Memory)
    requires 6 <= e && e != f
    ensures CodeHere(m, dst, h0, h1, h2) && Load(m, Plus(dst, e)) != Load(m, Plus(dst, f))
  {
    hide Plus, Load, Spot, ByOffset, Bytes, Next8, LowestByte, HighestByte, CodeHere;
    var x := Next8(Bytes(h0, h1, h2, f));
    m := ByOffset(dst, Spot(h0, h1, h2, e, x));
    SpotCode(dst, h0, h1, h2, e, x);
    SpotAt(dst, h0, h1, h2, e, x, e);
    SpotAt(dst, h0, h1, h2, e, x, f);
    Next8Differs(Bytes(h0, h1, h2, f));
    LoadBytes(m, Plus(dst, e));
    LoadBytes(m, Plus(dst, f));
  }

  lemma OffDiffers(e: bv32, f: bv32)
    requires e != f
    ensures Off(e, 3) != Off(f, 3)
  {}

  lemma HighDiffers(dst: Addr, h0: Half, h1: Half, h2: Half, e: bv32, f: bv32) returns (m: Memory)
    requires 6 <= Off(e, 3) && e != f
    ensures CodeHere(m, dst, h0, h1, h2) && Load(m, Plus(dst, e)) != Load(m, Plus(dst, f))
  {
    hide Plus, Load, Spot, ByOffset, Bytes, Next8, LowestByte, HighestByte, CodeHere, Off;
    OffDiffers(e, f);
    var x := Next8(Bytes(h0, h1, h2, Off(f, 3)));
    m := ByOffset(dst, Spot(h0, h1, h2, Off(e, 3), x));
    SpotCode(dst, h0, h1, h2, Off(e, 3), x);
    SpotAt(dst, h0, h1, h2, Off(e, 3), x, Off(e, 3));
    SpotAt(dst, h0, h1, h2, Off(e, 3), x, Off(f, 3));
    Next8Differs(Bytes(h0, h1, h2, Off(f, 3)));
    LoadBytes(m, Plus(dst, e));
    LoadBytes(m, Plus(dst, f));
    OffsetOf(dst, e, 3);
    OffsetOf(dst, f, 3);
  }

  /** Of two different words, not both are covered by six bytes of code. */
  lemma NotBothCovered(e: bv32, f: bv32)
    requires e != f && e & 3 == f & 3
    ensures 6 <= e || 6 <= Off(e, 3) || 6 <= f || 6 <= Off(f, 3)
  {}

  lemma LoadsDiffer(dst: Addr, h0: Half, h1: Half, h2: Half, e: bv32, f: bv32) returns (m: Memory)
    requires e != f && e & 3 == f & 3
    ensures CodeHere(m, dst, h0, h1, h2) && Load(m, Plus(dst, e)) != Load(m, Plus(dst, f))
  {
    NotBothCovered(e, f);
    hide Plus, Load, CodeHere, Off;
    if 6 <= e {
      m := LowDiffers(dst, h0, h1, h2, e, f);
    } else if 6 <= f {
      m := LowDiffers(dst, h0, h1, h2, f, e);
    } else if 6 <= Off(e, 3) {
      m := HighDiffers(dst, h0, h1, h2, e, f);
    } else {
      m := HighDiffers(dst, h0, h1, h2, f, e);
    }
  }

  // --------------------------------------------------------- Another program counter

  /** A load into two registers has two. */
  predicate TwoRegisters(u: PcUse) { u.Ldrd? ==> u.rt != u.rt2 }

  predicate Loads(u: PcUse) { u.Ldrd? || u.Vldr? }

  predicate Jumps(u: PcUse) { u.JumpAdd? || (u.MovPc? && u.rd == PC) }

  predicate Leaves(u: PcUse) { u.Bx? || u.BlxLabel? }

  lemma PlusDiffers(v: Addr, w: Addr, off: bv32)
    requires v != w
    ensures Plus(v, off) != Plus(w, off)
  {}

  lemma SetRegisterDiffers(c: Core, r: nat, v: bv32, w: bv32)
    requires v != w
    ensures SetRegister(c, r, v) != SetRegister(c, r, w)
  {
    assert SetRegister(c, r, v).r[r] == v && SetRegister(c, r, w).r[r] == w;
  }

  lemma TwoDiffer(c: Core, r: nat, q: nat, v: bv32, w: bv32, v1: bv32, w1: bv32)
    requires v != w && r != q
    ensures SetRegister(SetRegister(c, r, v), q, v1) != SetRegister(SetRegister(c, r, w), q, w1)
  {
    assert SetRegister(SetRegister(c, r, v), q, v1).r[r] == v && SetRegister(SetRegister(c, r, w), q, w1).r[r] == w;
  }

  lemma SetRIs(c: Core, r: Reg, v: bv32)
    ensures SetR(c, r, v) == SetRegister(c, r as nat, v)
  {}

  lemma RegsDiffer(r: Reg, q: Reg)
    requires r != q
    ensures r as nat != q as nat
  {}

  /** An instruction that goes on has written a register, in which the two values show. */
  lemma NextDiffers(u: PcUse, v: Addr, w: Addr, src: Addr, dst: Addr, c: Core)
    requires v != w && TwoRegisters(u) && !Jumps(u) && !Leaves(u)
    requires Loads(u) ==> Load(c.mem, Plus(v, u.off)) != Load(c.mem, Plus(w, u.off))
    ensures var o, o1 := UsePc(NEUTRAL, u, v, dst, c), UsePc(NEUTRAL, u, w, src, c);
      o.Next? && o1.Next? && o.core != o1.core && o.core.mem == c.mem
  {
    hide Plus, Load, GetR;
    match u
    case Adr(rd, off) =>
      PlusDiffers(v, w, off);
      SetRDiffers(c, rd, Plus(v, off), Plus(w, off));
    case AddPc(rd) =>
      PlusDiffers(v, w, GetR(c, rd));
      SetRDiffers(c, rd, Plus(v, GetR(c, rd)), Plus(w, GetR(c, rd)));
    case MovPc(rd) => SetRDiffers(c, rd, v, w);
    case Ldrd(rt, rt2, off) =>
      RegsDiffer(rt, rt2);
      TwoDiffer(c, rt as nat, rt2 as nat, Load(c.mem, Plus(v, off)), Load(c.mem, Plus(w, off)),
                Load(c.mem, Plus(Plus(v, off), 4)), Load(c.mem, Plus(Plus(w, off), 4)));
    case Vldr(r, double, off) =>
      SetRegisterDiffers(c, r, Load(c.mem, Plus(v, off)), Load(c.mem, Plus(w, off)));
      TwoDiffer(c, r, r + 1, Load(c.mem, Plus(v, off)), Load(c.mem, Plus(w, off)),
                Load(c.mem, Plus(Plus(v, off), 4)), Load(c.mem, Plus(Plus(w, off), 4)));
    case Ldc(op, off) =>
      PlusDiffers(v, w, off);
      SetRDiffers(c, PC, Plus(v, off), Plus(w, off));
  }

  lemma NextFails(u: PcUse, src: Addr, dst: Addr, size: bv32, c: Core)
    requires PcValue(u, dst) != PcValue(u, src) && TwoRegisters(u) && !Jumps(u) && !Leaves(u)
    requires Loads(u) ==> Load(c.mem, Plus(PcValue(u, dst), u.off)) != Load(c.mem, Plus(PcValue(u, src), u.off))
    requires Fetch(c.mem, Plus(dst, size)) == LOOP
    requires Step(NEUTRAL, State(dst, c)) == After(Exec(NEUTRAL, UsesPc(u), dst, c), dst, size)
    ensures !Reaches(NEUTRAL, State(dst, c), Expected(NEUTRAL, UsesPc(u), src, Plus(dst, size), c))
  {
    hide UsePc, PcValue, Load, Plus, Fetch, LOOP, Step, Reaches, Jumps, Leaves, TwoRegisters;
    NextDiffers(u, PcValue(u, dst), PcValue(u, src), src, dst, c);
    var c1 := UsePc(NEUTRAL, u, PcValue(u, dst), dst, c).core;
    LoopStays(NEUTRAL, Plus(dst, size), c1);
    NeverReached(NEUTRAL, State(dst, c), Thumb(State(Plus(dst, size), c1)), Expected(NEUTRAL, UsesPc(u), src, Plus(dst, size), c));
  }

  lemma EvenPc(a: Addr)
    requires Even(a)
    ensures WithoutBit0(ReadPc(a)) == ReadPc(a) && ReadPc(a) == Plus(a, 4)
  {}

  /** The target of a jump, if the register that is added holds 0. */
  lemma JumpGoes(u: PcUse, pc: Addr, c: Core)
    requires Jumps(u) && c.r == map[] && Even(pc)
    ensures UsePc(NEUTRAL, u, PcValue(u, pc), pc, c) == Goto(Plus(pc, 4), c) && PcValue(u, pc) == Plus(pc, 4)
  {
    EvenPc(pc);
    PlusZero(ReadPc(pc));
    hide Plus, WithoutBit0, ReadPc, Align4, Even;
  }

  lemma JumpFails(u: PcUse, src: Addr, dst: Addr, size: bv32, c: Core)
    requires PcValue(u, dst) != PcValue(u, src) && Jumps(u) && c.r == map[] && Even(src) && Even(dst)
    requires Fetch(c.mem, Plus(dst, 4)) == LOOP
    requires Step(NEUTRAL, State(dst, c)) == After(Exec(NEUTRAL, UsesPc(u), dst, c), dst, size)
    ensures !Reaches(NEUTRAL, State(dst, c), Expected(NEUTRAL, UsesPc(u), src, Plus(dst, size), c))
  {
    hide UsePc, PcValue, Plus, Fetch, LOOP, Step, Reaches, Even;
    JumpGoes(u, dst, c);
    JumpGoes(u, src, c);
    LoopStays(NEUTRAL, Plus(dst, 4), c);
    NeverReached(NEUTRAL, State(dst, c), Thumb(State(Plus(dst, 4), c)), Expected(NEUTRAL, UsesPc(u), src, Plus(dst, size), c));
  }

  lemma LeaveFails(u: PcUse, src: Addr, dst: Addr, size: bv32, c: Core)
    requires PcValue(u, dst) != PcValue(u, src) && Leaves(u)
    requires Step(NEUTRAL, State(dst, c)) == After(Exec(NEUTRAL, UsesPc(u), dst, c), dst, size)
    ensures !Reaches(NEUTRAL, State(dst, c), Expected(NEUTRAL, UsesPc(u), src, Plus(dst, size), c))
  {
    hide PcValue, Plus, Step, Reaches, SetR, WithBit0, LR;
    var v, w := PcValue(u, dst), PcValue(u, src);
    if u.BlxLabel? { PlusDiffers(v, w, u.off); }
    NeverReached(NEUTRAL, State(dst, c), Step(NEUTRAL, State(dst, c)), Expected(NEUTRAL, UsesPc(u), src, Plus(dst, size), c));
  }

  lemma AlignedOffsets(src: Addr, dst: Addr, off: bv32)
    ensures var e, f := Minus(Plus(Align4(ReadPc(dst)), off), dst), Minus(Plus(Align4(ReadPc(src)), off), dst); e & 3 == f & 3
  {}

  lemma OffsetsDiffer(dst: Addr, a: Addr, b: Addr)
    requires a != b
    ensures Minus(a, dst) != Minus(b, dst)
  {
    There(dst, a);
    There(dst, b);
    hide Plus, Minus;
  }

  /** A core with the code in its place in which the use of the program counter shows. */
  lemma UseWitness(u: PcUse, src: Addr, dst: Addr, h0: Half, h1: Half, h2: Half) returns (c: Core)
    requires PcValue(u, dst) != PcValue(u, src)
    ensures c.r == map[] && CodeHere(c.mem, dst, h0, h1, h2)
    ensures Loads(u) ==> Load(c.mem, Plus(PcValue(u, dst), u.off)) != Load(c.mem, Plus(PcValue(u, src), u.off))
  {
    hide Plus, Minus, Load, Fetch, CodeHere, ReadPc, Align4;
    var m;
    if Loads(u) {
      var a, b := Plus(PcValue(u, dst), u.off), Plus(PcValue(u, src), u.off);
      PlusDiffers(PcValue(u, dst), PcValue(u, src), u.off);
      OffsetsDiffer(dst, a, b);
      AlignedOffsets(src, dst, u.off);
      m := LoadsDiffer(dst, h0, h1, h2, Minus(a, dst), Minus(b, dst));
      There(dst, a);
      There(dst, b);
    } else {
      m := ByOffset(dst, Spot(h0, h1, h2, 6, 0));
      SpotCode(dst, h0, h1, h2, 6, 0);
    }
    c := Core(map[], 0, m);
  }

  lemma UseFails(u: PcUse, src: Addr, dst: Addr, size: bv32, c: Core)
    requires PcValue(u, dst) != PcValue(u, src) && TwoRegisters(u) && c.r == map[] && Even(src) && Even(dst)
    requires Loads(u) ==> Load(c.mem, Plus(PcValue(u, dst), u.off)) != Load(c.mem, Plus(PcValue(u, src), u.off))
    requires Fetch(c.mem, Plus(dst, size)) == LOOP && (Jumps(u) ==> Fetch(c.mem, Plus(dst, 4)) == LOOP)
    requires Step(NEUTRAL, State(dst, c)) == After(Exec(NEUTRAL, UsesPc(u), dst, c), dst, size)
    ensures !Reaches(NEUTRAL, State(dst, c), Expected(NEUTRAL, UsesPc(u), src, Plus(dst, size), c))
  {
    hide *;
    if Jumps(u) {
      JumpFails(u, src, dst, size, c);
    } else if Leaves(u) {
      LeaveFails(u, src, dst, size, c);
    } else {
      NextFails(u, src, dst, size, c);
    }
  }

  // ----------------------------------------------------------------- The copied words

  lemma ShortCopied(h: Half)
    requires !IsLong(h) && DecodeShort(h).UsesPc?
    ensures TwoRegisters(DecodeShort(h).use) && forall src, dst, pool :: CopyShort(src, dst, h, pool) == Copied([h], [])
  {
    hide IsLong, IsCbz, IsBCond, IsB, IsBlx, IsLdrLiteral, IsLdrNoOffset, IsAdr, IsAddPc, IsJumpAdd, IsMovPc, IsBxPc, DecodeBranch5, DecodeBranch8,
         DecodeBranch11, CbzNz, LowReg, Condition8, BlxReg, LiteralReg, Literal8, BaseReg, HighReg, CopyCbz, CopyBCond, CopyB, CopyLiteralLoad16;
  }

  lemma LongUseForm(w: Long)
    requires UsesPcLong(w)
    ensures !LooksLikeLiteral(w) && !LooksLikeBCondW(w)
  {
    hide IsLdrd, SecondReg, LiteralRegW, PC;
    if IsLdrd(w) { LdrdForm(w); }
  }

  lemma LdrdForm(w: Long)
    requires IsLdrd(w)
    ensures !LooksLikeLiteral(w) && !LooksLikeBCondW(w)
  {
    hide SecondReg, LiteralRegW, PC;
  }

  lemma LongCopied(w: Long)
    requires DecodeLong(w).UsesPc?
    ensures TwoRegisters(DecodeLong(w).use) && forall src, dst, pool :: CopyLong(src, dst, w, pool) == Copied(Halves(w), [])
  {
    hide IsBCondW, IsBW, IsBl, IsLdrLiteralW, IsNarrowLiteral, IsLdrNoOffsetW, IsAdrAdd, IsAdrSub, IsBlxLabel, IsLdc, IsVldr, IsDouble, VfpReg,
         LiteralWords, Immediate12, DecodeBranch20, DecodeBranch24, Condition20, LiteralRegW, LiteralOffset, IsHalf, IsSigned, BaseRegW, SecondReg,
         LooksLikeLiteral, LooksLikeBCondW, CopyLiteralLoad32, CopyBCondW, CopyBW, CopyBl, PC, Halves;
    LongUseForm(w);
  }

  /** Of the instructions that are copied although they use the program counter, each that finds another
    * value there goes wrong in some state.
    */
  lemma ShortUseFails(src: Addr, dst: Addr, pool: Addr, h: Half) returns (c: Core)
    requires !IsLong(h) && DecodeShort(h).UsesPc? && !PcKept(src, dst, DecodeShort(h)) && Even(src) && Even(dst)
    ensures Placed(c.mem, dst, pool, CopyShort(src, dst, h, pool)) && !Simulates(NEUTRAL, DecodeShort(h), src, dst, CopyShort(src, dst, h, pool), c)
  {
    ShortCopied(h);
    var u := DecodeShort(h).use;
    PcKeptIs(src, dst, u);
    hide IsLong, DecodeShort, CopyShort, PcKept, PcValue, TwoRegisters, Loads, Jumps, Even, Plus, Fetch, LOOP, Exec, Expected, After, Step, Reaches, CodeAt, End, Load;
    c := UseWitness(u, src, dst, h, LOOP, LOOP);
    ShortAlone(c.mem, dst, h);
    StepShort(NEUTRAL, dst, c, h, UsesPc(u));
    UseFails(u, src, dst, 2, c);
  }

  lemma LongUseFails(src: Addr, dst: Addr, pool: Addr, w: Long) returns (c: Core)
    requires IsLong(High(w)) && DecodeLong(w).UsesPc? && !PcKept(src, dst, DecodeLong(w)) && Even(src) && Even(dst)
    ensures Placed(c.mem, dst, pool, CopyLong(src, dst, w, pool)) && !Simulates(NEUTRAL, DecodeLong(w), src, dst, CopyLong(src, dst, w, pool), c)
  {
    LongCopied(w);
    JoinHalves(w);
    var u := DecodeLong(w).use;
    PcKeptIs(src, dst, u);
    assert Decode(High(w), Low(w)) == UsesPc(u);
    hide IsLong, DecodeLong, Decode, CopyLong, PcKept, PcValue, TwoRegisters, Loads, Jumps, Even, Plus, Fetch, LOOP, Exec, Expected, After, Step, Reaches,
         CodeAt, End, Load, High, Low, Halves, Join;
    c := UseWitness(u, src, dst, High(w), Low(w), LOOP);
    LongAlone(c.mem, dst, w);
    StepLong(NEUTRAL, dst, c, w, UsesPc(u));
    UseFails(u, src, dst, 4, c);
  }

  // ---------------------------------------------------------------- What looks like B<c>.W

  /** A hint or system instruction that is taken for B<c>.W. */
  predicate IsHint(w: Long) { LooksLikeBCondW(w) && !IsBCondW(w) }

  /** A memory of branches to themselves. */
  function Loops(): Memory { a => if Even(a) then LowByte(LOOP) else HighByte(LOOP) }

  lemma OddNext(a: Addr)
    requires Even(a)
    ensures !Even(Plus(a, 1))
  {}

  lemma LoopsEverywhere(a: Addr)
    requires Even(a)
    ensures Fetch(Loops(), a) == LOOP
  {
    OddNext(a);
    PairOfBytes(LOOP);
    hide Even, Plus, Pair, LowByte, HighByte, LOOP;
  }

  /** The hint replaces memory by loops, and any other such instruction leaves Thumb code. */
  function Telling(w: Long): OtherSemantics { (op: Long, c: Core) => if op == w then Next(c.(mem := Loops())) else Leave(0, c) }

  lemma HintForm(w: Long, delta: bv32)
    requires IsHint(w)
    ensures IsHint(Place20(w, delta)) && IsLong(High(Place20(w, delta)))
  {}

  lemma HintDecodes(w: Long)
    requires IsHint(w)
    ensures !LooksLikeLiteral(w) && !IsBCondW(w) && !IsBW(w) && !IsBl(w) && !IsLdrLiteralW(w) && !IsNarrowLiteral(w) && !IsLdrNoOffsetW(w)
  {}

  lemma HintIsNoUse(w: Long)
    requires IsHint(w)
    ensures !IsAdrAdd(w) && !IsAdrSub(w) && !IsBlxLabel(w) && !IsLdrd(w) && !IsLdc(w)
  {
    hide LiteralRegW, SecondReg, PC;
  }

  lemma HintIsOther(w: Long)
    requires IsHint(w)
    ensures DecodeLong(w) == Other(w)
  {
    HintDecodes(w);
    HintIsNoUse(w);
    hide IsHint, IsBCondW, IsBW, IsBl, IsLdrLiteralW, IsNarrowLiteral, IsLdrNoOffsetW, IsAdrAdd, IsAdrSub, IsBlxLabel, IsLdrd, IsLdc, LongUse;
  }

  lemma HintStep(w: Long, x: Long, dst: Addr, c: Core)
    requires IsHint(x) && IsLong(High(x)) && Fetch(c.mem, dst) == High(x) && Fetch(c.mem, Plus(dst, 2)) == Low(x)
    ensures Step(Telling(w), State(dst, c)) == if x == w then Thumb(State(Plus(dst, 4), c.(mem := Loops()))) else Arm(State(0, c))
  {
    HintIsOther(x);
    JoinHalves(x);
    hide IsHint, IsLong, High, Low, Join, DecodeLong, Plus, Fetch, Step, Loops;
    StepLong(Telling(w), dst, c, x, Other(x));
  }

  lemma EvenFour(a: Addr)
    requires Even(a)
    ensures Even(Plus(a, 4))
  {}

  /** Whatever begins with the re-encoded hint misses what the hint did, unless it is the hint alone. */
  lemma HintMissed(w: Long, x: Long, src: Addr, dst: Addr, end: Addr, c: Core)
    requires IsHint(w) && IsHint(x) && IsLong(High(x)) && Fetch(c.mem, dst) == High(x) && Fetch(c.mem, Plus(dst, 2)) == Low(x)
    requires Even(dst) && (x == w ==> end != Plus(dst, 4))
    ensures !Reaches(Telling(w), State(dst, c), Expected(Telling(w), DecodeLong(w), src, end, c))
  {
    HintStep(w, x, dst, c);
    HintIsOther(w);
    EvenFour(dst);
    LoopsEverywhere(Plus(dst, 4));
    hide IsHint, IsLong, High, Low, DecodeLong, Plus, Fetch, Step, Loops, Reaches, Even, LOOP;
    var c1 := c.(mem := Loops());
    assert c1.mem == Loops();
    if x == w { LoopStays(Telling(w), Plus(dst, 4), c1); }
    NeverReached(Telling(w), State(dst, c), Step(Telling(w), State(dst, c)), Thumb(State(end, c1)));
  }

  /** How the re-encoded hint begins. */
  function Reencoded(src: Addr, dst: Addr, w: Long): Long {
    var newDelta := Minus(BranchTarget(src, DecodeBranch20(w)), ReadPc(dst));
    Place20(w, if Fits20(newDelta) then newDelta else 2)
  }

  predicate IsNear(src: Addr, dst: Addr, w: Long) { Fits20(Minus(BranchTarget(src, DecodeBranch20(w)), ReadPc(dst))) }

  lemma TwoFits()
    ensures Fits20(2)
  {}

  /** Near enough, the copy is one word; otherwise a long branch follows. */
  lemma HintCopy(src: Addr, dst: Addr, w: Long, pool: Addr) returns (y: Long, target: Addr)
    requires IsHint(w)
    ensures var x := Halves(Reencoded(src, dst, w));
      CopyLong(src, dst, w, pool) == if IsNear(src, dst, w) then Copied(x, []) else Copied(x + ([OVER] + Halves(y)), [target])
  {
    HintDecodes(w);
    TwoFits();
    target := WithBit0(BranchTarget(src, DecodeBranch20(w)));
    y := EmitLiteralLoad12(Plus(dst, 6), PC, pool);
    PcLiteralCopy(Plus(dst, 6), target, pool);
    hide IsBCondW, LooksLikeLiteral, Fits20, Place20, Plus, Minus, BranchTarget, ReadPc, DecodeBranch20, Halves, OVER, EmitLongLiteralLoad, WithBit0, PC;
    var x := Halves(Reencoded(src, dst, w));
    assert x + [OVER] + Halves(y) == x + ([OVER] + Halves(y));
  }

  lemma FarEnd(dst: Addr)
    ensures Plus(Plus(dst, 6), 4) != Plus(dst, 4)
  {}

  /** A core with the copy of the hint in its place. */
  lemma HintWitness(src: Addr, dst: Addr, d: bv32, w: Long) returns (c: Core)
    requires IsHint(w) && 10 <= d <= 0xffe
    ensures var x, k := Reencoded(src, dst, w), CopyLong(src, dst, w, Plus(dst, d));
      && Placed(c.mem, dst, Plus(dst, d), k) && Fetch(c.mem, dst) == High(x) && Fetch(c.mem, Plus(dst, 2)) == Low(x)
      && (!IsNear(src, dst, w) ==> End(dst, k.code) != Plus(dst, 4))
  {
    var y, target := HintCopy(src, dst, w, Plus(dst, d));
    var x := Reencoded(src, dst, w);
    hide Fetch, Plus, Load, CodeAt, End, High, Low, ByOffset, Content, OVER, Halves, CopyLong, Reencoded, IsNear, IsHint;
    var m := ByOffset(dst, Content(High(x), Low(x), OVER, High(y), Low(y), d, target, Nothing()));
    WitnessCode(dst, High(x), Low(x), OVER, High(y), Low(y), d, target, Nothing());
    LongAlone(m, dst, x);
    LongCode(m, dst, x, [OVER] + Halves(y));
    ShortCode(m, Plus(dst, 4), OVER, Halves(y));
    Plus42(dst);
    LongAlone(m, Plus(dst, 6), y);
    SixTwo(dst);
    FarEnd(dst);
    c := Core(map[], 0, m);
  }

  lemma SixTwo(a: Addr)
    ensures Plus(Plus(a, 6), 2) == Plus(a, 8)
  {}

  lemma ReencodedForm(src: Addr, dst: Addr, w: Long)
    requires IsHint(w)
    ensures IsHint(Reencoded(src, dst, w)) && IsLong(High(Reencoded(src, dst, w)))
  {
    hide IsHint, IsLong, High, Place20, Minus, BranchTarget, ReadPc, DecodeBranch20, Fits20;
    var newDelta := Minus(BranchTarget(src, DecodeBranch20(w)), ReadPc(dst));
    HintForm(w, if Fits20(newDelta) then newDelta else 2);
  }

  /** A near copy is the hint only if there was no move. */
  lemma NearDiffers(src: Addr, dst: Addr, w: Long, pool: Addr)
    requires IsHint(w) && Even(src) && Even(dst) && src != dst && IsNear(src, dst, w)
    ensures Reencoded(src, dst, w) != w
  {
    HintsAreChanged(src, dst, w, pool);
    var y, target := HintCopy(src, dst, w, pool);
    hide IsHint, Even, IsNear, Reencoded, CopyLong, Halves;
  }

  /** A hint that has been moved goes wrong in some state. */
  lemma HintFails(src: Addr, dst: Addr, d: bv32, w: Long) returns (c: Core)
    requires IsHint(w) && Even(src) && PoolAhead(dst, d) && src != dst
    ensures Placed(c.mem, dst, Plus(dst, d), CopyLong(src, dst, w, Plus(dst, d)))
    ensures !Simulates(Telling(w), DecodeLong(w), src, dst, CopyLong(src, dst, w, Plus(dst, d)), c)
  {
    PoolNear(dst, d);
    PoolAheadEven(dst, d);
    hide IsHint, Even, IsNear, Reencoded, CopyLong, DecodeLong, Placed, Telling, High, Low, IsLong, Fetch, Plus, End, Reaches, Expected, PoolAhead;
    c := HintWitness(src, dst, d, w);
    ReencodedForm(src, dst, w);
    if IsNear(src, dst, w) { NearDiffers(src, dst, w, Plus(dst, d)); }
    HintMissed(w, Reencoded(src, dst, w), src, dst, End(dst, CopyLong(src, dst, w, Plus(dst, d)).code), c);
  }

  /** A hint that has not been moved is itself. */
  lemma HintKept(other: OtherSemantics, src: Addr, pool: Addr, w: Long, c: Core)
    requires IsHint(w) && Even(src) && Placed(c.mem, src, pool, CopyLong(src, src, w, pool)) && IsLong(High(w))
    ensures Simulates(other, DecodeLong(w), src, src, CopyLong(src, src, w, pool), c)
  {
    HintsAreChanged(src, src, w, pool);
    HintIsOther(w);
    JoinHalves(w);
    var y, target := HintCopy(src, src, w, pool);
    hide IsHint, Even, IsNear, Reencoded, CopyLong, DecodeLong, High, Low, IsLong, Fetch, CodeAt, Simulates, Halves, Join, PoolAt;
    assert CopyLong(src, src, w, pool).code == Halves(w);
    CopiedLong(other, src, src, w, c);
    SameCode(other, w, src, src, CopyLong(src, src, w, pool), Copied(Halves(w), []), c);
  }

  lemma SameCode(other: OtherSemantics, w: Long, src: Addr, dst: Addr, k: Copied, k1: Copied, c: Core)
    requires k.code == k1.code && Simulates(other, DecodeLong(w), src, dst, k1, c)
    ensures Simulates(other, DecodeLong(w), src, dst, k, c)
  {
    hide DecodeLong, Reaches, Expected, End;
  }

  // ------------------------------------------------------------------------ Exactness

  /** What the code has an answer for: not IT or a table branch on the program counter, where it stops, and
    * of the literal loads those to which the architecture gives a meaning.
    */
  predicate Answered(h: Half, g: Half) {
    if IsLong(h) then !IsTableBranchHere(Join(h, g)) && (LooksLikeLiteral(Join(h, g)) ==> Defined(Join(h, g))) else !IsIt(h)
  }

  /** The move is harmless: a test on the halfwords and the two addresses. */
  predicate Harmless(src: Addr, dst: Addr, h: Half, g: Half) {
    && PcKept(src, dst, Decode(h, g))
    && (IsLong(h) ==>
        && (LooksLikeLiteral(Join(h, g)) ==> UnderstoodLiteral(Join(h, g)))
        && (IsHint(Join(h, g)) ==> src == dst))
  }

  ghost predicate FaithfulMove(src: Addr, dst: Addr, d: bv32, h: Half, g: Half) {
    forall other: OtherSemantics, c: Core | Placed(c.mem, dst, Plus(dst, d), CopyInstruction(src, dst, h, g, Plus(dst, d))) ::
      Simulates(other, Decode(h, g), src, dst, CopyInstruction(src, dst, h, g, Plus(dst, d)), c)
  }

  lemma AsLong(src: Addr, dst: Addr, h: Half, g: Half, pool: Addr)
    requires IsLong(h)
    ensures Decode(h, g) == DecodeLong(Join(h, g)) && CopyInstruction(src, dst, h, g, pool) == CopyLong(src, dst, Join(h, g), pool)
    ensures IsLong(High(Join(h, g)))
  {
    HalvesOfJoin(h, g);
    hide IsLong, Join, High, Low, DecodeLong, CopyLong;
  }

  lemma AsShort(src: Addr, dst: Addr, h: Half, g: Half, pool: Addr)
    requires !IsLong(h)
    ensures Decode(h, g) == DecodeShort(h) && CopyInstruction(src, dst, h, g, pool) == CopyShort(src, dst, h, pool)
  {
    hide IsLong, DecodeShort, CopyShort;
  }

  lemma HarmlessIsFaithful(src: Addr, dst: Addr, d: bv32, h: Half, g: Half)
    requires Even(src) && PoolAhead(dst, d) && Answered(h, g) && Harmless(src, dst, h, g)
    ensures FaithfulMove(src, dst, d, h, g)
  {
    hide IsLong, Join, High, Low, Decode, DecodeLong, CopyInstruction, CopyLong, Placed, Plus, Even, PoolAhead, IsIt, IsTableBranchHere, LooksLikeLiteral,
         LooksLikeBCondW, IsBCondW, UnderstoodLiteral, Defined, Simulates, PcKept;
    forall other: OtherSemantics, c: Core | Placed(c.mem, dst, Plus(dst, d), CopyInstruction(src, dst, h, g, Plus(dst, d)))
      ensures Simulates(other, Decode(h, g), src, dst, CopyInstruction(src, dst, h, g, Plus(dst, d)), c)
    {
      if IsLong(h) && IsHint(Join(h, g)) {
        AsLong(src, dst, h, g, Plus(dst, d));
        HintKept(other, src, Plus(dst, d), Join(h, g), c);
      } else {
        MoveSimulates(other, src, dst, d, h, g, c);
      }
    }
  }

  lemma HarmfulFails(src: Addr, dst: Addr, d: bv32, h: Half, g: Half) returns (other: OtherSemantics, c: Core)
    requires Even(src) && PoolAhead(dst, d) && Answered(h, g) && !Harmless(src, dst, h, g)
    requires IsLong(h) && LooksLikeLiteral(Join(h, g)) && !UnderstoodLiteral(Join(h, g)) ==> Elsewhere(src, dst, d, Join(h, g))
    ensures Placed(c.mem, dst, Plus(dst, d), CopyInstruction(src, dst, h, g, Plus(dst, d)))
    ensures !Simulates(other, Decode(h, g), src, dst, CopyInstruction(src, dst, h, g, Plus(dst, d)), c)
  {
    PoolAheadEven(dst, d);
    assert !PcKept(src, dst, Decode(h, g)) ==> Decode(h, g).UsesPc?;
    hide IsLong, Join, High, Low, Decode, DecodeLong, DecodeShort, CopyInstruction, CopyLong, CopyShort, Placed, Plus, Even, PoolAhead, IsIt,
         IsTableBranchHere, LooksLikeLiteral, LooksLikeBCondW, IsBCondW, IsHint, UnderstoodLiteral, Defined, Elsewhere, Simulates, PcKept, NEUTRAL, Telling;
    var pool := Plus(dst, d);
    if IsLong(h) {
      var w := Join(h, g);
      AsLong(src, dst, h, g, pool);
      if LooksLikeLiteral(w) && !UnderstoodLiteral(w) {
        c := LiteralFails(src, dst, d, w);
        other := NEUTRAL;
      } else if IsHint(w) && src != dst {
        c := HintFails(src, dst, d, w);
        other := Telling(w);
      } else {
        c := LongUseFails(src, dst, pool, w);
        other := NEUTRAL;
      }
    } else {
      AsShort(src, dst, h, g, pool);
      c := ShortUseFails(src, dst, pool, h);
      other := NEUTRAL;
    }
  }

  /** Every Thumb-2 instruction is moved faithfully, in all states, if and only if the move is harmless. */
  lemma MoveExact(src: Addr, dst: Addr, d: bv32, h: Half, g: Half)
    requires Even(src) && PoolAhead(dst, d) && Answered(h, g)
    requires IsLong(h) && LooksLikeLiteral(Join(h, g)) && !UnderstoodLiteral(Join(h, g)) ==> Elsewhere(src, dst, d, Join(h, g))
    ensures FaithfulMove(src, dst, d, h, g) <==> Harmless(src, dst, h, g)
  {
    hide *;
    if Harmless(src, dst, h, g) {
      HarmlessIsFaithful(src, dst, d, h, g);
    } else {
      var other, c := HarmfulFails(src, dst, d, h, g);
      NotFaithful(src, dst, d, h, g, other, c);
    }
  }

  lemma NotFaithful(src: Addr, dst: Addr, d: bv32, h: Half, g: Half, other: OtherSemantics, c: Core)
    requires Placed(c.mem, dst, Plus(dst, d), CopyInstruction(src, dst, h, g, Plus(dst, d)))
    requires !Simulates(other, Decode(h, g), src, dst, CopyInstruction(src, dst, h, g, Plus(dst, d)), c)
    ensures !FaithfulMove(src, dst, d, h, g)
  {
    hide Placed, Simulates, CopyInstruction, Decode, Plus;
  }
}
