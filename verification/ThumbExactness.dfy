/** Which Thumb-2 literal loads are moved faithfully: exactly the word loads into a register with an
  * offset that is not subtracted. For every other one there is a state in which the copy does something
  * else (detours/src/disasm.cpp:3285-3340).
  */
module ThumbExactness {
  import opened ThumbEncoding
  import opened ThumbMachine
  import opened ThumbCopy
  import opened ThumbBits
  import opened ThumbSimulation

  // ------------------------------------------------------------- Never reaching a state

  lemma {:induction false} Stays(other: OtherSemantics, s: State, n: nat)
    requires Step(other, s) == Thumb(s)
    ensures Run(other, s, n) == Thumb(s)
    decreases n
  {
    hide Step;
    if n > 0 { Stays(other, s, n - 1); }
  }

  lemma StaysAway(other: OtherSemantics, s: State, m: Machine)
    requires Step(other, s) == Thumb(s) && m != Thumb(s)
    ensures forall n: nat :: Run(other, s, n) != m
  {
    hide Step;
    forall n: nat
      ensures Run(other, s, n) != m
    {
      Stays(other, s, n);
    }
  }

  lemma LeavesAway(other: OtherSemantics, s: State, t: State, m: Machine)
    requires Step(other, s) == Arm(t) && m != Arm(t)
    ensures !Reaches(other, s, m)
  {
    hide Step;
  }

  /** One step and then always the same state. */
  lemma OneStepAway(other: OtherSemantics, s: State, t: State, m: Machine)
    requires Step(other, s) == Thumb(t) && m != Thumb(t) && Step(other, t) == Thumb(t)
    ensures !Reaches(other, s, m)
  {
    hide Step;
    StaysAway(other, t, m);
    forall n: nat | n > 0
      ensures Run(other, s, n) != m
    {
      assert Run(other, s, n) == Run(other, t, n - 1);
    }
  }

  lemma TwoStepsAway(other: OtherSemantics, s: State, t: State, u: State, m: Machine)
    requires Step(other, s) == Thumb(t) && Step(other, t) == Thumb(u) && Step(other, u) == Thumb(u)
    requires m != Thumb(t) && m != Thumb(u)
    ensures !Reaches(other, s, m)
  {
    hide Step;
    StaysAway(other, u, m);
    forall n: nat | n > 0
      ensures Run(other, s, n) != m
    {
      assert Run(other, s, n) == Run(other, t, n - 1);
      if n > 1 { assert Run(other, t, n - 1) == Run(other, u, n - 2); }
    }
  }

  // ----------------------------------------------------------------- A memory by offsets

  /** The memory whose byte at an offset from `dst` is given. */
  function ByOffset(dst: Addr, content: bv32 -> bv8): Memory { a => content(Minus(a, dst)) }

  function LowByte(h: Half): bv8 { (h & 0xff) as bv8 }
  function HighByte(h: Half): bv8 { (h >> 8) as bv8 }

  lemma PairOfBytes(h: Half)
    ensures Pair(LowByte(h), HighByte(h)) == h
  {}

  lemma PlusOne(dst: Addr, k: bv32)
    ensures Plus(Plus(dst, k), 1) == Plus(dst, k + 1)
  {}

  lemma FetchByOffset(dst: Addr, content: bv32 -> bv8, k: bv32)
    ensures Fetch(ByOffset(dst, content), Plus(dst, k)) == Pair(content(k), content(k + 1))
  {
    hide Plus, Minus, Pair;
    PlusOne(dst, k);
    FromHere(dst, k);
    FromHere(dst, k + 1);
  }

  /** A branch to itself. */
  const LOOP: Half := 0xe7fe

  /** Five halfwords of code, the pool word at `d`, and something else. */
  function Content(h0: Half, h1: Half, h2: Half, h3: Half, h4: Half, d: bv32, v: bv32, rest: bv32 -> bv8): bv32 -> bv8 {
    o =>
      if o == 0 then LowByte(h0) else if o == 1 then HighByte(h0)
      else if o == 2 then LowByte(h1) else if o == 3 then HighByte(h1)
      else if o == 4 then LowByte(h2) else if o == 5 then HighByte(h2)
      else if o == 6 then LowByte(h3) else if o == 7 then HighByte(h3)
      else if o == 8 then LowByte(h4) else if o == 9 then HighByte(h4)
      else if o == d then LowByte(Low(v)) else if o == d + 1 then HighByte(Low(v))
      else if o == d + 2 then LowByte(High(v)) else if o == d + 3 then HighByte(High(v))
      else rest(o)
  }

  lemma CodeContent(h0: Half, h1: Half, h2: Half, h3: Half, h4: Half, d: bv32, v: bv32, rest: bv32 -> bv8)
    ensures var c := Content(h0, h1, h2, h3, h4, d, v, rest);
      && Pair(c(0), c(1)) == h0 && Pair(c(2), c(3)) == h1 && Pair(c(4), c(5)) == h2 && Pair(c(6), c(7)) == h3 && Pair(c(8), c(9)) == h4
  {
    PairOfBytes(h0);
    PairOfBytes(h1);
    PairOfBytes(h2);
    PairOfBytes(h3);
    PairOfBytes(h4);
    hide Pair, LowByte, HighByte, Low, High;
  }

  /** A byte that is neither code nor pool. */
  predicate Free(d: bv32, o: bv32) { 10 <= o && (o < d || o > d + 3) }

  lemma PoolOffsets(d: bv32)
    requires 10 <= d <= 0xffe
    ensures 10 <= d + 1 && 10 <= d + 2 && 10 <= d + 3
  {}

  lemma PoolContent(h0: Half, h1: Half, h2: Half, h3: Half, h4: Half, d: bv32, v: bv32, rest: bv32 -> bv8)
    requires 10 <= d <= 0xffe
    ensures var c := Content(h0, h1, h2, h3, h4, d, v, rest);
      c(d) == LowByte(Low(v)) && c(d + 1) == HighByte(Low(v)) && c(d + 2) == LowByte(High(v)) && c(d + 3) == HighByte(High(v))
  {
    PoolOffsets(d);
    Beyond(d);
    Beyond(d + 1);
    Beyond(d + 2);
    Beyond(d + 3);
    Distinct(d);
    hide LowByte, HighByte, Low, High;
  }

  lemma Beyond(o: bv32)
    requires 10 <= o
    ensures o != 0 && o != 1 && o != 2 && o != 3 && o != 4 && o != 5 && o != 6 && o != 7 && o != 8 && o != 9
  {}

  lemma Distinct(d: bv32)
    ensures d + 1 != d && d + 2 != d && d + 3 != d && d + 2 != d + 1 && d + 3 != d + 1 && d + 3 != d + 2
  {}

  lemma FreeContent(h0: Half, h1: Half, h2: Half, h3: Half, h4: Half, d: bv32, v: bv32, rest: bv32 -> bv8, o: bv32)
    requires 10 <= d <= 0xffe && Free(d, o)
    ensures Content(h0, h1, h2, h3, h4, d, v, rest)(o) == rest(o)
  {
    Beyond(o);
    NotPool(d, o);
    hide LowByte, HighByte, Low, High;
  }

  lemma NotPool(d: bv32, o: bv32)
    requires 10 <= d <= 0xffe && Free(d, o)
    ensures o != d && o != d + 1 && o != d + 2 && o != d + 3
  {}

  // --------------------------------------------------------------------- The witness

  lemma PlusZero(a: Addr)
    ensures Plus(a, 0) == a
  {}

  lemma PlusFour(a: Addr)
    ensures Plus(Plus(a, 4), 2) == Plus(a, 6) && Plus(Plus(a, 2), 2) == Plus(a, 4)
  {}

  lemma PlusSix(a: Addr)
    ensures Plus(Plus(a, 4), 4) == Plus(a, 8)
  {}

  lemma PlusPool(a: Addr, d: bv32)
    ensures Plus(Plus(a, d), 2) == Plus(a, d + 2)
  {}

  lemma TwoMore(d: bv32)
    ensures d + 2 + 1 == d + 3
  {}

  /** The memory of the witness: code and pool are in it, and elsewhere it is `rest`. */
  lemma WitnessCode(dst: Addr, h0: Half, h1: Half, h2: Half, h3: Half, h4: Half, d: bv32, v: bv32, rest: bv32 -> bv8)
    requires 10 <= d <= 0xffe
    ensures var m := ByOffset(dst, Content(h0, h1, h2, h3, h4, d, v, rest));
      && Fetch(m, dst) == h0 && Fetch(m, Plus(dst, 2)) == h1 && Fetch(m, Plus(dst, 4)) == h2 && Fetch(m, Plus(dst, 6)) == h3
      && Fetch(m, Plus(dst, 8)) == h4 && Load(m, Plus(dst, d)) == v
  {
    hide Plus, Fetch, ByOffset, Pair, Join, High, Low, LowByte, HighByte, Content;
    var c := Content(h0, h1, h2, h3, h4, d, v, rest);
    CodeContent(h0, h1, h2, h3, h4, d, v, rest);
    PlusZero(dst);
    FetchByOffset(dst, c, 0);
    FetchByOffset(dst, c, 2);
    FetchByOffset(dst, c, 4);
    FetchByOffset(dst, c, 6);
    FetchByOffset(dst, c, 8);
    PoolContent(h0, h1, h2, h3, h4, d, v, rest);
    FetchByOffset(dst, c, d);
    FetchByOffset(dst, c, d + 2);
    TwoMore(d);
    PlusPool(dst, d);
    PairOfBytes(Low(v));
    PairOfBytes(High(v));
    JoinHalves(v);
  }

  lemma WitnessElsewhere(dst: Addr, h0: Half, h1: Half, h2: Half, h3: Half, h4: Half, d: bv32, v: bv32, rest: bv32 -> bv8, o: bv32)
    requires 10 <= d <= 0xffe && Free(d, o)
    ensures ByOffset(dst, Content(h0, h1, h2, h3, h4, d, v, rest))(Plus(dst, o)) == rest(o)
  {
    hide Plus, Minus, Content, Free;
    FreeContent(h0, h1, h2, h3, h4, d, v, rest, o);
    FromHere(dst, o);
  }

  // -------------------------------------------------------------- Loads into a register

  lemma LoopForm()
    ensures !IsCbz(LOOP) && !IsBCond(LOOP) && IsB(LOOP) && !IsLong(LOOP) && DecodeBranch11(LOOP) == 0xffff_fffc
  {}

  lemma LoopTarget(a: Addr)
    ensures BranchTarget(a, 0xffff_fffc) == a
  {}

  lemma LoopStays(other: OtherSemantics, a: Addr, c: Core)
    requires Fetch(c.mem, a) == LOOP
    ensures Step(other, State(a, c)) == Thumb(State(a, c))
  {
    LoopForm();
    hide Fetch, BranchTarget, IsCbz, IsBCond, IsB, IsLong, DecodeBranch11, LOOP, Step;
    StepShort(other, a, c, LOOP, B(0xffff_fffc));
    LoopTarget(a);
  }

  lemma LaterAddress(dst: Addr)
    ensures Plus(dst, 6) != Plus(dst, 4) && Plus(dst, 8) != Plus(dst, 4)
  {}

  /** Where the copy of a literal load ends. */
  lemma LiteralEnds(dst: Addr, reg: Reg, x: Addr, pool: Addr)
    requires reg != PC
    ensures End(dst, EmitLongLiteralLoad(dst, reg, x, pool).code) == if IsLowReg(reg) then Plus(dst, 6) else Plus(dst, 8)
  {
    hide Plus, EmitLiteralLoad12, LdrNoOffset, LdrNoOffsetW, IsLowReg, Halves, CodeAt, End, PC;
    var m: Memory := _ => 0;
    var w := EmitLiteralLoad12(dst, reg, pool);
    LongCode(m, dst, w, EmitImmediateRegisterLoad(reg));
    if IsLowReg(reg) {
      ShortAlone(m, Plus(dst, 4), LdrNoOffset(reg));
      PlusFour(dst);
    } else {
      LongAlone(m, Plus(dst, 4), LdrNoOffsetW(reg));
      PlusSix(dst);
    }
  }

  lemma SetRDiffers(c: Core, r: Reg, v: bv32, w: bv32)
    requires v != w
    ensures SetR(c, r, v) != SetR(c, r, w)
  {
    assert SetR(c, r, v).r[r as nat] == v && SetR(c, r, w).r[r as nat] == w;
  }

  /** The copy leaves the word at `x` in the register and nothing else. */
  lemma RegisterMissed(other: OtherSemantics, dst: Addr, d: bv32, reg: Reg, x: Addr, c: Core, v: bv32)
    requires reg != PC && PoolAhead(dst, d) && Placed(c.mem, dst, Plus(dst, d), EmitLongLiteralLoad(dst, reg, x, Plus(dst, d)))
    requires var end := End(dst, EmitLongLiteralLoad(dst, reg, x, Plus(dst, d)).code); Fetch(c.mem, end) == LOOP
    requires v != Load(c.mem, x)
    ensures var end := End(dst, EmitLongLiteralLoad(dst, reg, x, Plus(dst, d)).code);
      !Reaches(other, State(dst, c), Thumb(State(end, SetR(c, reg, v))))
  {
    LiteralEnds(dst, reg, x, Plus(dst, d));
    LaterAddress(dst);
    SetRDiffers(c, reg, v, Load(c.mem, x));
    assert SetR(c, reg, Load(c.mem, x)).mem == c.mem;
    hide Fetch, Plus, EmitLiteralLoad12, EmitImmediateRegisterLoad, Load, SetR, Step, PoolAhead, Ahead, Reaches, End, CodeAt, Halves, PC, IsLowReg, LOOP;
    var pool := Plus(dst, d);
    var w := EmitLiteralLoad12(dst, reg, pool);
    LongCode(c.mem, dst, w, EmitImmediateRegisterLoad(reg));
    LongAlone(c.mem, dst, w);
    AheadAtOnce(dst, d);
    LiteralLoadRuns(other, dst, d, reg, c);
    RegisterLoadRuns(other, Plus(dst, 4), reg, x, c);
    var end := End(dst, Halves(w) + EmitImmediateRegisterLoad(reg));
    LoopStays(other, end, SetR(c, reg, Load(c.mem, x)));
    TwoStepsAway(other, State(dst, c), State(Plus(dst, 4), SetR(c, reg, x)), State(end, SetR(c, reg, Load(c.mem, x))),
                 Thumb(State(end, SetR(c, reg, v))));
  }

  /** A state in which the copy is in its place and the rest of memory is as given. */
  lemma RegisterWitness(dst: Addr, d: bv32, reg: Reg, x: Addr, rest: bv32 -> bv8) returns (c: Core)
    requires reg != PC && 10 <= d <= 0xffe
    ensures var k := EmitLongLiteralLoad(dst, reg, x, Plus(dst, d));
      Placed(c.mem, dst, Plus(dst, d), k) && Fetch(c.mem, End(dst, k.code)) == LOOP
    ensures forall o | Free(d, o) :: c.mem(Plus(dst, o)) == rest(o)
  {
    LiteralEnds(dst, reg, x, Plus(dst, d));
    hide Fetch, Plus, EmitLiteralLoad12, LdrNoOffset, LdrNoOffsetW, Load, CodeAt, End, PC, IsLowReg, LOOP, ByOffset, Content, High, Low, Free;
    var w := EmitLiteralLoad12(dst, reg, Plus(dst, d));
    var h2, h3, h4 := LOOP, LOOP, LOOP;
    if IsLowReg(reg) { h2 := LdrNoOffset(reg); } else { h2, h3 := High(LdrNoOffsetW(reg)), Low(LdrNoOffsetW(reg)); }
    var m := ByOffset(dst, Content(High(w), Low(w), h2, h3, h4, d, x, rest));
    WitnessCode(dst, High(w), Low(w), h2, h3, h4, d, x, rest);
    LongCode(m, dst, w, EmitImmediateRegisterLoad(reg));
    if IsLowReg(reg) {
      ShortAlone(m, Plus(dst, 4), h2);
    } else {
      LongAlone(m, Plus(dst, 4), LdrNoOffsetW(reg));
      PlusFour(dst);
    }
    c := Core(map[], 0, m);
    forall o | Free(d, o)
      ensures c.mem(Plus(dst, o)) == rest(o)
    {
      WitnessElsewhere(dst, High(w), Low(w), h2, h3, h4, d, x, rest, o);
    }
  }

  // ------------------------------------------------------------------ Values that differ

  function Off(e: bv32, k: bv32): bv32 { e + k }

  /** The literal's bytes, and the one before them, are neither code nor pool. */
  predicate OutOfTheWay(d: bv32, e: bv32) {
    Free(d, Off(e, 0xffff_ffff)) && Free(d, e) && Free(d, Off(e, 1)) && Free(d, Off(e, 2)) && Free(d, Off(e, 3))
  }

  predicate Top55(v: bv32) { v & 0xff00_0000 == 0x5500_0000 }

  lemma JoinTop(lo: bv8, g: Half)
    ensures Top55(Join(Pair(lo, 0x55), g))
  {}

  lemma PlusThree(a: Addr)
    ensures Plus(Plus(a, 2), 1) == Plus(a, 3)
  {}

  lemma OffIs(e: bv32, k: bv32)
    ensures Off(e, k) == e + k
  {}

  lemma PlusOfSum(dst: Addr, e: bv32, k: bv32)
    ensures Plus(dst + e, k) == Plus(dst, e + k)
  {}

  lemma OffsetOf(dst: Addr, e: bv32, k: bv32)
    ensures Plus(Plus(dst, e), k) == Plus(dst, Off(e, k))
  {
    hide *;
    OffIs(e, k);
    PlusIs(dst, e);
    PlusOfSum(dst, e, k);
  }

  lemma LoadTop(m: Memory, dst: Addr, e: bv32)
    requires m(Plus(dst, Off(e, 3))) == 0x55
    ensures Top55(Load(m, Plus(dst, e)))
  {
    hide Plus, Top55, Join, Pair, Off;
    var a := Plus(dst, e);
    PlusThree(a);
    OffsetOf(dst, e, 3);
    JoinTop(m(Plus(a, 2)), Fetch(m, a));
  }

  lemma ZeroPair()
    ensures Pair(0, 0) == 0 && Join(0, 0) == 0
  {}

  lemma LoadZero(m: Memory, dst: Addr, f: bv32)
    requires m(Plus(dst, f)) == 0 && m(Plus(dst, Off(f, 1))) == 0 && m(Plus(dst, Off(f, 2))) == 0 && m(Plus(dst, Off(f, 3))) == 0
    ensures Load(m, Plus(dst, f)) == 0
  {
    hide Plus, Join, Pair, Off;
    ZeroPair();
    OffsetOf(dst, f, 1);
    OffsetOf(dst, f, 2);
    OffsetOf(dst, f, 3);
    PlusThree(Plus(dst, f));
  }

  lemma ByteNotTop(b: bv8, signed: bool)
    ensures !Top55(ExtendByte(b, signed))
  {}

  lemma HalfNotTop(h: Half, signed: bool)
    ensures !Top55(ExtendHalf(h, signed))
  {}

  lemma NarrowNotTop(m: Memory, a: Addr, half: bool, signed: bool)
    ensures !Top55(LoadNarrow(m, a, half, signed))
  {
    hide Top55, ExtendByte, ExtendHalf, Fetch;
    ByteNotTop(m(a), signed);
    HalfNotTop(Fetch(m, a), signed);
  }

  lemma ZeroNotTop()
    ensures !Top55(0)
  {}

  // ------------------------------------------------------------------- The literal loads

  /** A semantics for the words that are not decoded, which these theorems do not need. */
  const NEUTRAL: OtherSemantics := (op, c) => Next(c)

  /** The address the copy loads from, and the literal's. */
  function LoadedFrom(src: Addr, w: Long): Addr { Plus(ReadPc(Align4(src)), Literal12(w)) }

  function LiteralOf(src: Addr, w: Long): Addr { LiteralAddress(src, LiteralOffset(w)) }

  /** The literal, and what is loaded instead of it, lie outside the trampoline, and not at address 0. */
  predicate Elsewhere(src: Addr, dst: Addr, d: bv32, w: Long) {
    && OutOfTheWay(d, Minus(LoadedFrom(src, w), dst)) && OutOfTheWay(d, Minus(LiteralOf(src, w), dst)) && LoadedFrom(src, w) != 0
  }

  /** Zeros, but for the highest byte of a word at `e`. */
  function OnlyTop(e: bv32): bv32 -> bv8 { o => if o == Off(e, 3) then 0x55 else 0 }

  lemma TopOnly(e: bv32)
    ensures OnlyTop(e)(Off(e, 3)) == 0x55
  {}

  lemma NarrowForm(w: Long)
    requires IsNarrowLiteral(w)
    ensures LooksLikeLiteral(w) && !IsBCondW(w) && !IsBW(w) && !IsBl(w) && !IsLdrLiteralW(w)
  {}

  lemma WordForm(w: Long)
    requires IsLdrLiteralW(w)
    ensures LooksLikeLiteral(w) && !IsBCondW(w) && !IsBW(w) && !IsBl(w)
  {}

  lemma NarrowDecodes(w: Long)
    requires IsNarrowLiteral(w)
    ensures DecodeLong(w) == if LiteralRegW(w) == PC then Preload else LdrNarrow(LiteralRegW(w), LiteralOffset(w), IsHalf(w), IsSigned(w))
  {
    NarrowForm(w);
    hide IsBCondW, IsBW, IsBl, IsLdrLiteralW, IsNarrowLiteral, LiteralRegW, LiteralOffset, IsHalf, IsSigned, PC;
  }

  lemma WordDecodes(w: Long)
    requires IsLdrLiteralW(w)
    ensures DecodeLong(w) == LdrLiteral(LiteralRegW(w), LiteralOffset(w))
  {
    WordForm(w);
    hide IsBCondW, IsBW, IsBl, IsLdrLiteralW, IsNarrowLiteral, LiteralRegW, LiteralOffset, IsHalf, IsSigned, PC;
  }

  lemma LiteralCopy(src: Addr, dst: Addr, w: Long, pool: Addr)
    requires LooksLikeLiteral(w)
    ensures CopyLong(src, dst, w, pool) == EmitLongLiteralLoad(dst, LiteralRegW(w), LoadedFrom(src, w), pool)
  {
    hide LooksLikeLiteral, EmitLongLiteralLoad, LiteralRegW, Literal12, Plus, ReadPc, Align4;
  }

  lemma ExpectedNarrow(w: Long, src: Addr, end: Addr, c: Core)
    requires IsNarrowLiteral(w) && LiteralRegW(w) != PC
    ensures Expected(NEUTRAL, DecodeLong(w), src, end, c)
         == Thumb(State(end, SetR(c, LiteralRegW(w), LoadNarrow(c.mem, LiteralOf(src, w), IsHalf(w), IsSigned(w)))))
  {
    NarrowDecodes(w);
    hide DecodeLong, LiteralRegW, LiteralOffset, LiteralAddress, LoadNarrow, IsHalf, IsSigned, SetR, PC, IsNarrowLiteral;
  }

  /** A core with the copy in its place, the top byte of what it loads set, and zeros elsewhere. */
  lemma TopWitness(src: Addr, dst: Addr, d: bv32, w: Long) returns (c: Core)
    requires LooksLikeLiteral(w) && LiteralRegW(w) != PC && PoolAhead(dst, d) && Elsewhere(src, dst, d, w)
    ensures var k := CopyLong(src, dst, w, Plus(dst, d)); Placed(c.mem, dst, Plus(dst, d), k) && Fetch(c.mem, End(dst, k.code)) == LOOP
    ensures Top55(Load(c.mem, LoadedFrom(src, w)))
    ensures forall o | Free(d, o) && o != Off(Minus(LoadedFrom(src, w), dst), 3) :: c.mem(Plus(dst, o)) == 0
  {
    var x, reg := LoadedFrom(src, w), LiteralRegW(w);
    var e := Minus(x, dst);
    assert OutOfTheWay(d, e);
    hide *;
    PoolNear(dst, d);
    LiteralCopy(src, dst, w, Plus(dst, d));
    There(dst, x);
    c := RegisterWitness(dst, d, reg, x, OnlyTop(e));
    TopOnly(e);
    LiteralFree(d, e);
    LoadTop(c.mem, dst, e);
    forall o | Free(d, o) && o != Off(e, 3)
      ensures c.mem(Plus(dst, o)) == 0
    {
      NotTopOnly(e, o);
    }
  }

  lemma NotTopOnly(e: bv32, o: bv32)
    requires o != Off(e, 3)
    ensures OnlyTop(e)(o) == 0
  {
    hide Off;
  }

  lemma NotSimulated(i: Instr, src: Addr, dst: Addr, k: Copied, c: Core, m: Machine)
    requires Expected(NEUTRAL, i, src, End(dst, k.code), c) == m && !Reaches(NEUTRAL, State(dst, c), m)
    ensures !Simulates(NEUTRAL, i, src, dst, k, c)
  {
    hide Expected, End, Reaches;
  }

  /** LDRB, LDRH, LDRSB and LDRSH: the copy loads a word. */
  lemma NarrowFails(src: Addr, dst: Addr, d: bv32, w: Long) returns (c: Core)
    requires IsNarrowLiteral(w) && LiteralRegW(w) != PC && PoolAhead(dst, d) && Elsewhere(src, dst, d, w)
    ensures Placed(c.mem, dst, Plus(dst, d), CopyLong(src, dst, w, Plus(dst, d)))
    ensures !Simulates(NEUTRAL, DecodeLong(w), src, dst, CopyLong(src, dst, w, Plus(dst, d)), c)
  {
    hide *;
    NarrowForm(w);
    LiteralCopy(src, dst, w, Plus(dst, d));
    c := TopWitness(src, dst, d, w);
    var k := CopyLong(src, dst, w, Plus(dst, d));
    var v := LoadNarrow(c.mem, LiteralOf(src, w), IsHalf(w), IsSigned(w));
    NarrowNotTop(c.mem, LiteralOf(src, w), IsHalf(w), IsSigned(w));
    RegisterMissed(NEUTRAL, dst, d, LiteralRegW(w), LoadedFrom(src, w), c, v);
    ExpectedNarrow(w, src, End(dst, k.code), c);
    NotSimulated(DecodeLong(w), src, dst, k, c, Thumb(State(End(dst, k.code), SetR(c, LiteralRegW(w), v))));
  }

  lemma LiteralFree(d: bv32, e: bv32)
    requires OutOfTheWay(d, e)
    ensures Free(d, e) && Free(d, Off(e, 1)) && Free(d, Off(e, 2)) && Free(d, Off(e, 3)) && Free(d, Off(e, 0xffff_ffff))
  {}

  lemma PoolNear(dst: Addr, d: bv32)
    requires PoolAhead(dst, d)
    ensures 10 <= d <= 0xffe
  {}

  // ------------------------------------------------------------- Subtracted offsets

  function Above(base: Addr, imm: bv32): Addr { base + imm + 3 }

  function Below(base: Addr, imm: bv32, k: bv32): Addr { base - imm + k }

  lemma Apart0(base: Addr, imm: bv32)
    requires 1 <= imm <= 0xfff
    ensures base + imm + 3 != base - imm + 0
  {}

  lemma Apart1(base: Addr, imm: bv32)
    requires 1 <= imm <= 0xfff
    ensures base + imm + 3 != base - imm + 1
  {}

  lemma Apart2(base: Addr, imm: bv32)
    requires 1 <= imm <= 0xfff
    ensures base + imm + 3 != base - imm + 2
  {}

  lemma Apart3(base: Addr, imm: bv32)
    requires 1 <= imm <= 0xfff
    ensures base + imm + 3 != base - imm + 3
  {}

  lemma Apart(base: Addr, imm: bv32, k: bv32)
    requires 1 <= imm <= 0xfff && (k == 0 || k == 1 || k == 2 || k == 3)
    ensures Above(base, imm) != Below(base, imm, k)
  {
    if k == 0 {
      Apart0(base, imm);
    } else if k == 1 {
      Apart1(base, imm);
    } else if k == 2 {
      Apart2(base, imm);
    } else {
      Apart3(base, imm);
    }
  }

  lemma AboveRaw(base: Addr, imm: bv32)
    ensures Plus(base + imm, 3) == Above(base, imm)
  {}

  lemma AboveIs(base: Addr, imm: bv32)
    ensures Plus(Plus(base, imm), 3) == Above(base, imm)
  {
    hide *;
    PlusIs(base, imm);
    AboveRaw(base, imm);
  }

  lemma BelowRaw(base: Addr, imm: bv32, k: bv32)
    ensures Plus(base - imm, k) == Below(base, imm, k)
  {}

  lemma PlusNegated(base: Addr, imm: bv32)
    ensures Plus(base, Negated(imm)) == base - imm
  {}

  lemma BelowIs(base: Addr, imm: bv32, k: bv32)
    ensures Plus(Plus(base, Negated(imm)), k) == Below(base, imm, k)
  {
    hide *;
    PlusNegated(base, imm);
    BelowRaw(base, imm, k);
  }

  /** The literal's bytes do not reach the top byte of what is loaded instead. */
  lemma TopNotWithin(base: Addr, imm: bv32, dst: Addr, k: bv32)
    requires 1 <= imm <= 0xfff && (k == 0 || k == 1 || k == 2 || k == 3)
    ensures Off(Minus(Plus(base, imm), dst), 3) != Off(Minus(Plus(base, Negated(imm)), dst), k)
  {
    Apart(base, imm, k);
    hide *;
    var e, f := Minus(Plus(base, imm), dst), Minus(Plus(base, Negated(imm)), dst);
    There(dst, Plus(base, imm));
    There(dst, Plus(base, Negated(imm)));
    AboveIs(base, imm);
    BelowIs(base, imm, k);
    OffsetOf(dst, e, 3);
    OffsetOf(dst, f, k);
  }

  lemma LiteralIs(src: Addr, w: Long)
    ensures LiteralOf(src, w) == Plus(ReadPc(Align4(src)), LiteralOffset(w))
  {
    LiteralTarget(src, LiteralOffset(w));
  }

  lemma Offset12(w: Long)
    requires Literal12(w) != 0
    ensures 1 <= Literal12(w) <= 0xfff
  {}

  lemma OffZero(f: bv32)
    ensures Off(f, 0) == f
  {}

  lemma ExpectedWord(w: Long, src: Addr, end: Addr, c: Core)
    requires IsLdrLiteralW(w)
    ensures Expected(NEUTRAL, DecodeLong(w), src, end, c)
         == if LiteralRegW(w) != PC then Thumb(State(end, SetR(c, LiteralRegW(w), Load(c.mem, LiteralOf(src, w)))))
            else if Bit0(Load(c.mem, LiteralOf(src, w))) then Thumb(State(WithoutBit0(Load(c.mem, LiteralOf(src, w))), c))
            else Arm(State(Load(c.mem, LiteralOf(src, w)), c))
  {
    WordDecodes(w);
    hide DecodeLong, LiteralRegW, LiteralOffset, LiteralAddress, Load, SetR, PC, IsLdrLiteralW, Bit0, WithoutBit0;
  }

  /** A subtracted offset: the copy loads from above the base. */
  lemma SubtractedFails(src: Addr, dst: Addr, d: bv32, w: Long) returns (c: Core)
    requires IsLdrLiteralW(w) && LiteralRegW(w) != PC && !Adds(w) && Literal12(w) != 0 && PoolAhead(dst, d) && Elsewhere(src, dst, d, w)
    ensures Placed(c.mem, dst, Plus(dst, d), CopyLong(src, dst, w, Plus(dst, d)))
    ensures !Simulates(NEUTRAL, DecodeLong(w), src, dst, CopyLong(src, dst, w, Plus(dst, d)), c)
  {
    assert OutOfTheWay(d, Minus(LiteralOf(src, w), dst));
    assert LiteralOffset(w) == Negated(Literal12(w));
    assert LoadedFrom(src, w) == Plus(ReadPc(Align4(src)), Literal12(w));
    hide *;
    WordForm(w);
    LiteralCopy(src, dst, w, Plus(dst, d));
    c := TopWitness(src, dst, d, w);
    var k := CopyLong(src, dst, w, Plus(dst, d));
    var base, imm, f := ReadPc(Align4(src)), Literal12(w), Minus(LiteralOf(src, w), dst);
    LiteralIs(src, w);
    Offset12(w);
    TopNotWithin(base, imm, dst, 0);
    TopNotWithin(base, imm, dst, 1);
    TopNotWithin(base, imm, dst, 2);
    TopNotWithin(base, imm, dst, 3);
    OffZero(f);
    LiteralFree(d, f);
    LoadZero(c.mem, dst, f);
    There(dst, LiteralOf(src, w));
    ZeroNotTop();
    RegisterMissed(NEUTRAL, dst, d, LiteralRegW(w), LoadedFrom(src, w), c, 0);
    ExpectedWord(w, src, End(dst, k.code), c);
    NotSimulated(DecodeLong(w), src, dst, k, c, Thumb(State(End(dst, k.code), SetR(c, LiteralRegW(w), 0))));
  }

  // ------------------------------------------------------------------- Register 15

  lemma PcLiteralCopy(dst: Addr, x: Addr, pool: Addr)
    ensures EmitLongLiteralLoad(dst, PC, x, pool) == Copied(Halves(EmitLiteralLoad12(dst, PC, pool)), [x])
    ensures End(dst, EmitLongLiteralLoad(dst, PC, x, pool).code) == Plus(dst, 4)
  {
    var w := EmitLiteralLoad12(dst, PC, pool);
    assert Halves(w) + [] == Halves(w);
    hide Plus, EmitLiteralLoad12, CodeAt, End, High, Low;
    LongAlone(_ => 0, dst, w);
  }

  /** A core with the copy in its place and the rest of memory as given. */
  lemma PcWitness(dst: Addr, d: bv32, x: Addr, rest: bv32 -> bv8) returns (c: Core)
    requires 10 <= d <= 0xffe
    ensures Placed(c.mem, dst, Plus(dst, d), EmitLongLiteralLoad(dst, PC, x, Plus(dst, d)))
    ensures forall o | Free(d, o) :: c.mem(Plus(dst, o)) == rest(o)
  {
    PcLiteralCopy(dst, x, Plus(dst, d));
    hide Fetch, Plus, EmitLiteralLoad12, Load, CodeAt, End, PC, ByOffset, Content, High, Low, Free, EmitLongLiteralLoad;
    var w := EmitLiteralLoad12(dst, PC, Plus(dst, d));
    var m := ByOffset(dst, Content(High(w), Low(w), 0, 0, 0, d, x, rest));
    WitnessCode(dst, High(w), Low(w), 0, 0, 0, d, x, rest);
    LongAlone(m, dst, w);
    c := Core(map[], 0, m);
    forall o | Free(d, o)
      ensures c.mem(Plus(dst, o)) == rest(o)
    {
      WitnessElsewhere(dst, High(w), Low(w), 0, 0, 0, d, x, rest, o);
    }
  }

  function Nothing(): bv32 -> bv8 { o => 0 }

  function LoopBefore(e: bv32): bv32 -> bv8 { o => if o == Off(e, 0xffff_ffff) then LowByte(LOOP) else if o == e then HighByte(LOOP) else 0 }

  predicate WordOffset(w: Long) { Literal12(w) & 3 == 0 }

  /** The defined encodings of LDR to the program counter have an aligned literal. */
  lemma AlignedLiteral(src: Addr, w: Long)
    requires WordOffset(w)
    ensures !Bit0(LoadedFrom(src, w))
  {
    hide LiteralRegW;
    AlignedRaw(src, w);
  }

  lemma AlignedRaw(src: Addr, w: Long)
    requires Literal12(w) & 3 == 0
    ensures Plus(ReadPc(Align4(src)), Literal12(w)) & 1 == 0
  {}

  lemma JumpsThere(src: Addr, dst: Addr, d: bv32, w: Long, c: Core)
    requires LooksLikeLiteral(w) && LiteralRegW(w) == PC && PoolAhead(dst, d)
    requires Placed(c.mem, dst, Plus(dst, d), CopyLong(src, dst, w, Plus(dst, d)))
    ensures Step(NEUTRAL, State(dst, c))
         == if Bit0(LoadedFrom(src, w)) then Thumb(State(WithoutBit0(LoadedFrom(src, w)), c)) else Arm(State(LoadedFrom(src, w), c))
  {
    PcLiteralJumps(NEUTRAL, src, dst, d, w, c);
    hide Step, LooksLikeLiteral, LiteralRegW, PC, Placed, CopyLong, Plus, LoadedFrom, Bit0, WithoutBit0;
    assert LoadedFrom(src, w) == Plus(ReadPc(Align4(src)), Literal12(w)) by { LoadedFromIs(src, w); }
  }

  lemma LoadedFromIs(src: Addr, w: Long)
    ensures LoadedFrom(src, w) == Plus(ReadPc(Align4(src)), Literal12(w))
  {}

  lemma NothingIsZero(o: bv32)
    ensures Nothing()(o) == 0
  {}

  lemma EvenZero()
    ensures !Bit0(0)
  {}

  /** LDR to the program counter goes where the literal says; the copy goes to the literal. */
  lemma PcLoadFails(src: Addr, dst: Addr, d: bv32, w: Long) returns (c: Core)
    requires IsLdrLiteralW(w) && LiteralRegW(w) == PC && WordOffset(w) && PoolAhead(dst, d) && Elsewhere(src, dst, d, w)
    ensures Placed(c.mem, dst, Plus(dst, d), CopyLong(src, dst, w, Plus(dst, d)))
    ensures !Simulates(NEUTRAL, DecodeLong(w), src, dst, CopyLong(src, dst, w, Plus(dst, d)), c)
  {
    assert OutOfTheWay(d, Minus(LiteralOf(src, w), dst)) && LoadedFrom(src, w) != 0;
    AlignedLiteral(src, w);
    hide *;
    var x, f := LoadedFrom(src, w), Minus(LiteralOf(src, w), dst);
    WordForm(w);
    PoolNear(dst, d);
    LiteralCopy(src, dst, w, Plus(dst, d));
    c := PcWitness(dst, d, x, Nothing());
    var k := CopyLong(src, dst, w, Plus(dst, d));
    LiteralFree(d, f);
    NothingIsZero(f);
    NothingIsZero(Off(f, 1));
    NothingIsZero(Off(f, 2));
    NothingIsZero(Off(f, 3));
    LoadZero(c.mem, dst, f);
    There(dst, LiteralOf(src, w));
    JumpsThere(src, dst, d, w, c);
    ExpectedWord(w, src, End(dst, k.code), c);
    EvenZero();
    LeavesAway(NEUTRAL, State(dst, c), State(x, c), Arm(State(0, c)));
    NotSimulated(DecodeLong(w), src, dst, k, c, Arm(State(0, c)));
  }

  lemma ExpectedPreload(w: Long, src: Addr, end: Addr, c: Core)
    requires IsNarrowLiteral(w) && LiteralRegW(w) == PC
    ensures Expected(NEUTRAL, DecodeLong(w), src, end, c) == Thumb(State(end, c))
  {
    NarrowDecodes(w);
    hide DecodeLong, LiteralRegW, LiteralOffset, IsHalf, IsSigned, PC, IsNarrowLiteral;
  }

  lemma LoopBytes(e: bv32)
    ensures LoopBefore(e)(Off(e, 0xffff_ffff)) == LowByte(LOOP) && LoopBefore(e)(e) == HighByte(LOOP)
  {
    OneBefore(e);
    hide Off, LowByte, HighByte, LOOP;
  }

  lemma OneBefore(e: bv32)
    ensures Off(e, 0xffff_ffff) != e
  {}

  lemma BeforeOdd(x: Addr)
    requires Bit0(x)
    ensures Plus(x, 0xffff_ffff) == WithoutBit0(x)
  {}

  lemma AfterBefore(x: Addr)
    ensures Plus(Plus(x, 0xffff_ffff), 1) == x
  {}

  lemma BeforeIsLater(dst: Addr, d: bv32, e: bv32)
    requires Free(d, Off(e, 0xffff_ffff))
    ensures Off(e, 0xffff_ffff) != 4
  {
    hide Off;
    FourIsCode(d);
  }

  lemma FourIsCode(d: bv32)
    ensures !Free(d, 4)
  {}

  /** At an odd literal the witness has a branch to itself, one byte before. */
  lemma LoopAtLiteral(dst: Addr, d: bv32, x: Addr, c: Core)
    requires Bit0(x) && OutOfTheWay(d, Minus(x, dst)) && forall o | Free(d, o) :: c.mem(Plus(dst, o)) == LoopBefore(Minus(x, dst))(o)
    ensures Fetch(c.mem, WithoutBit0(x)) == LOOP && WithoutBit0(x) != Plus(dst, 4)
  {
    hide *;
    var e := Minus(x, dst);
    LiteralFree(d, e);
    LoopBytes(e);
    There(dst, x);
    OffsetOf(dst, e, 0xffff_ffff);
    BeforeOdd(x);
    AfterBefore(x);
    FetchIs(c.mem, WithoutBit0(x));
    PairOfBytes(LOOP);
    BeforeIsLater(dst, d, e);
    FromHere(dst, Off(e, 0xffff_ffff));
    FromHere(dst, 4);
  }

  lemma FetchIs(m: Memory, a: Addr)
    ensures Fetch(m, a) == Pair(m(a), m(Plus(a, 1)))
  {}

  /** A preload hint does nothing; the copy goes to the address it was to preload. */
  lemma PreloadFails(src: Addr, dst: Addr, d: bv32, w: Long) returns (c: Core)
    requires IsNarrowLiteral(w) && LiteralRegW(w) == PC && PoolAhead(dst, d) && Elsewhere(src, dst, d, w)
    ensures Placed(c.mem, dst, Plus(dst, d), CopyLong(src, dst, w, Plus(dst, d)))
    ensures !Simulates(NEUTRAL, DecodeLong(w), src, dst, CopyLong(src, dst, w, Plus(dst, d)), c)
  {
    assert OutOfTheWay(d, Minus(LoadedFrom(src, w), dst));
    hide *;
    var x := LoadedFrom(src, w);
    var e := Minus(x, dst);
    NarrowForm(w);
    PoolNear(dst, d);
    LiteralCopy(src, dst, w, Plus(dst, d));
    PcLiteralCopy(dst, x, Plus(dst, d));
    c := PcWitness(dst, d, x, LoopBefore(e));
    var k := CopyLong(src, dst, w, Plus(dst, d));
    JumpsThere(src, dst, d, w, c);
    ExpectedPreload(w, src, End(dst, k.code), c);
    var m := Thumb(State(Plus(dst, 4), c));
    if Bit0(x) {
      LoopAtLiteral(dst, d, x, c);
      LoopStays(NEUTRAL, WithoutBit0(x), c);
      OneStepAway(NEUTRAL, State(dst, c), State(WithoutBit0(x), c), m);
    } else {
      LeavesAway(NEUTRAL, State(dst, c), State(x, c), m);
    }
    NotSimulated(DecodeLong(w), src, dst, k, c, m);
  }

  // ------------------------------------------------------------------------ Exactness

  /** The literal loads and preload hints to which the architecture gives a meaning. */
  predicate Defined(w: Long) {
    || (IsLdrLiteralW(w) && (LiteralRegW(w) == PC ==> WordOffset(w)))
    || IsNarrowLiteral(w)
  }

  lemma UnderstoodLiteralIs(w: Long)
    requires UnderstoodLiteral(w)
    ensures UnderstoodLong(w) && LooksLikeLiteral(w) && DecodeLong(w).LdrLiteral?
  {
    WordForm(w);
    LiteralIsNoBranch(w);
  }

  lemma LiteralIsNoBranch(w: Long)
    requires IsLdrLiteralW(w)
    ensures !LooksLikeBCondW(w) && !IsTableBranchHere(w)
  {}

  lemma LiteralIsLong(w: Long)
    requires LooksLikeLiteral(w)
    ensures IsLong(High(w))
  {}

  /** There is a state in which a literal load that is not understood goes wrong. */
  lemma LiteralFails(src: Addr, dst: Addr, d: bv32, w: Long) returns (c: Core)
    requires Defined(w) && !UnderstoodLiteral(w) && PoolAhead(dst, d) && Elsewhere(src, dst, d, w)
    ensures Placed(c.mem, dst, Plus(dst, d), CopyLong(src, dst, w, Plus(dst, d)))
    ensures !Simulates(NEUTRAL, DecodeLong(w), src, dst, CopyLong(src, dst, w, Plus(dst, d)), c)
  {
    hide IsNarrowLiteral, IsLdrLiteralW, LiteralRegW, Adds, Literal12, WordOffset, PC, PoolAhead, Elsewhere, Placed, Simulates, CopyLong, DecodeLong, Plus;
    if IsNarrowLiteral(w) { NarrowForm(w); }
    if IsLdrLiteralW(w) {
      if LiteralRegW(w) == PC {
        c := PcLoadFails(src, dst, d, w);
      } else {
        c := SubtractedFails(src, dst, d, w);
      }
    } else if LiteralRegW(w) == PC {
      c := PreloadFails(src, dst, d, w);
    } else {
      c := NarrowFails(src, dst, d, w);
    }
  }

  /** In every state in which its copy is in place, the copy of a literal load or preload hint does what
    * the instruction did.
    */
  ghost predicate Faithful(src: Addr, dst: Addr, d: bv32, w: Long) {
    forall other: OtherSemantics, c: Core | Placed(c.mem, dst, Plus(dst, d), CopyLong(src, dst, w, Plus(dst, d))) ::
      Simulates(other, DecodeLong(w), src, dst, CopyLong(src, dst, w, Plus(dst, d)), c)
  }

  /** A literal load is moved faithfully if and only if it is understood. */
  lemma LiteralExact(src: Addr, dst: Addr, d: bv32, w: Long)
    requires Defined(w) && Even(src) && PoolAhead(dst, d) && Elsewhere(src, dst, d, w)
    ensures Faithful(src, dst, d, w) <==> UnderstoodLiteral(w)
  {
    hide Defined, UnderstoodLiteral, PoolAhead, Elsewhere, Placed, Simulates, CopyLong, DecodeLong, Plus, Even;
    if UnderstoodLiteral(w) {
      UnderstoodLiteralIs(w);
      LiteralIsLong(w);
      forall other: OtherSemantics, c: Core | Placed(c.mem, dst, Plus(dst, d), CopyLong(src, dst, w, Plus(dst, d)))
        ensures Simulates(other, DecodeLong(w), src, dst, CopyLong(src, dst, w, Plus(dst, d)), c)
      {
        LongSimulates(other, src, dst, d, w, c);
      }
    } else {
      var c := LiteralFails(src, dst, d, w);
    }
  }
}
