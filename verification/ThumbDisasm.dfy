/** The Thumb-2 `CDetourDis` itself (detours/src/disasm.cpp:2809-3345, 3445-3600): it writes code forward
  * and pool words backward in one buffer of halfwords, and fills in a branch over a long branch once it
  * knows how long that is.
  */
module ThumbDisasm {
  import opened ThumbEncoding
  import opened ThumbMachine
  import opened ThumbCopy
  import opened ThumbSimulation
  import opened DisasmBuffer

  const DETOUR_INSTRUCTION_TARGET_NONE: Addr := 0

  function AddressOf(base: Addr, i: nat): Addr { if i == 0 then base else Plus(AddressOf(base, i - 1), 2) }

  function PoolHalves(words: seq<bv32>): seq<Half> { if words == [] then [] else [Low(words[0]), High(words[0])] }

  /** The code at `at` and the pool word just below `pool`. */
  predicate Fits(b: seq<Half>, at: nat, pool: nat, k: Copied) { at + |k.code| + |PoolHalves(k.pool)| <= pool <= |b| }

  function WithCopied(b: seq<Half>, at: nat, pool: nat, k: Copied): seq<Half>
    requires Fits(b, at, pool, k)
  {
    Written(Written(b, at, k.code), pool - |PoolHalves(k.pool)|, PoolHalves(k.pool))
  }

  lemma PrefixWritten(b: seq<Half>, at: nat, pool: nat, h: seq<Half>, k: Copied)
    requires at + |h| + |k.code| + |PoolHalves(k.pool)| <= pool <= |b|
    ensures Written(WithCopied(b, at + |h|, pool, k), at, h) == WithCopied(b, at, pool, Copied(h + k.code, k.pool))
  {
    hide Fetch, PoolHalves;
  }

  lemma ThenWritten(b: seq<Half>, at: nat, pool: nat, s: seq<Half>, k: Copied)
    requires at + |s| + |k.code| + |PoolHalves(k.pool)| <= pool <= |b|
    ensures WithCopied(Written(b, at, s), at + |s|, pool, k) == WithCopied(b, at, pool, Copied(s + k.code, k.pool))
  {
    hide Fetch, PoolHalves;
    WrittenTwice(b, at, s, k.code);
  }

  lemma NoPool(b: seq<Half>, at: nat, pool: nat, s: seq<Half>)
    requires at + |s| <= pool <= |b|
    ensures WithCopied(b, at, pool, Copied(s, [])) == Written(b, at, s)
  {}

  lemma CodeAfterPool(b: seq<Half>, at: nat, pool: nat, k: Copied)
    requires Fits(b, at, pool, k)
    ensures Written(Written(b, pool - |PoolHalves(k.pool)|, PoolHalves(k.pool)), at, k.code) == WithCopied(b, at, pool, k)
  {
    hide Fetch, PoolHalves;
  }

  /** A buffer that memory agrees with holds the code and the pool word where the simulation wants them. */
  predicate InMemory(m: Memory, base: Addr, b: seq<Half>) { forall i | 0 <= i < |b| :: Fetch(m, AddressOf(base, i)) == b[i] }

  lemma {:induction false} SliceInMemory(m: Memory, base: Addr, b: seq<Half>, at: nat, s: seq<Half>)
    requires InMemory(m, base, b) && at + |s| <= |b| && b[at..at + |s|] == s
    ensures CodeAt(m, AddressOf(base, at), s)
    decreases |s|
  {
    hide Fetch, Plus;
    if s != [] {
      assert b[at] == s[0];
      assert b[at + 1..at + |s|] == s[1..];
      SliceInMemory(m, base, b, at + 1, s[1..]);
    }
  }

  lemma CodeInBuffer(b: seq<Half>, at: nat, pool: nat, k: Copied)
    requires Fits(b, at, pool, k)
    ensures WithCopied(b, at, pool, k)[at..at + |k.code|] == k.code
  {
    hide PoolHalves;
    var c := WithCopied(b, at, pool, k);
    forall i | 0 <= i < |k.code|
      ensures c[at..at + |k.code|][i] == k.code[i]
    {
      assert c[at + i] == Written(b, at, k.code)[at + i];
    }
  }

  lemma WrittenIsPlaced(m: Memory, base: Addr, b: seq<Half>, at: nat, pool: nat, k: Copied)
    requires Fits(b, at, pool, k) && InMemory(m, base, WithCopied(b, at, pool, k)) && |k.pool| <= 1 && 2 <= pool
    ensures Placed(m, AddressOf(base, at), AddressOf(base, pool - 2), k)
  {
    var c := WithCopied(b, at, pool, k);
    CodeInBuffer(b, at, pool, k);
    SliceInMemory(m, base, c, at, k.code);
    hide Fetch, High, Low, Join, Plus;
    if k.pool != [] {
      assert c[pool - 2] == Low(k.pool[0]) && c[pool - 1] == High(k.pool[0]);
      assert AddressOf(base, pool - 1) == Plus(AddressOf(base, pool - 2), 2);
      Rejoined(k.pool[0]);
    }
  }

  lemma Rejoined(w: bv32)
    ensures Join(High(w), Low(w)) == w
  {}

  class CDetourDis {
    const base: Addr
    const rbCode: array<Half>
    var m_pbTarget: Addr
    var m_pbPool: nat
    var m_lExtra: nat

    constructor (base: Addr, rbCode: array<Half>, pool: nat)
      ensures this.base == base && this.rbCode == rbCode && m_pbPool == pool && m_lExtra == 0
      ensures m_pbTarget == DETOUR_INSTRUCTION_TARGET_NONE
    {
      this.base, this.rbCode, m_pbTarget, m_pbPool, m_lExtra := base, rbCode, DETOUR_INSTRUCTION_TARGET_NONE, pool, 0;
    }

    /** The longest form takes 5 halfwords of code and 2 of pool. */
    predicate HasRoom(at: nat)
      reads this
    {
      at + 7 <= m_pbPool <= rbCode.Length
    }

    method EmitShort(at: nat, h: Half) returns (next: nat)
      requires at < rbCode.Length
      modifies rbCode
      ensures next == at + 1 && rbCode[..] == Written(old(rbCode[..]), at, [h])
    {
      rbCode[at] := h;
      next := at + 1;
    }

    method EmitLong(at: nat, w: Long) returns (next: nat)
      requires at + 1 < rbCode.Length
      modifies rbCode
      ensures next == at + 2 && rbCode[..] == Written(old(rbCode[..]), at, Halves(w))
    {
      hide Fetch, High, Low;
      rbCode[at], rbCode[at + 1] := High(w), Low(w);
      next := at + 2;
    }

    method EmitImmediateRegister(at: nat, reg: Reg) returns (next: nat)
      requires at + 1 < rbCode.Length
      modifies rbCode
      ensures next == at + |EmitImmediateRegisterLoad(reg)| && rbCode[..] == Written(old(rbCode[..]), at, EmitImmediateRegisterLoad(reg))
    {
      hide Fetch, LdrNoOffset, LdrNoOffsetW, IsLowReg, High, Low;
      if IsLowReg(reg) { next := EmitShort(at, LdrNoOffset(reg)); } else { next := EmitLong(at, LdrNoOffsetW(reg)); }
    }

    method PushPool(v: bv32)
      requires 2 <= m_pbPool <= rbCode.Length
      modifies this`m_pbPool, rbCode
      ensures m_pbPool == old(m_pbPool) - 2 && rbCode[..] == Written(old(rbCode[..]), m_pbPool, PoolHalves([v]))
    {
      hide Fetch, High, Low;
      m_pbPool := m_pbPool - 2;
      rbCode[m_pbPool], rbCode[m_pbPool + 1] := Low(v), High(v);
    }

    method EmitLiteral12(at: nat, reg: Reg) returns (next: nat)
      requires at + 1 < rbCode.Length
      modifies rbCode
      ensures next == at + 2
      ensures rbCode[..] == Written(old(rbCode[..]), at, Halves(EmitLiteralLoad12(AddressOf(base, at), reg, AddressOf(base, m_pbPool))))
    {
      hide Fetch, EmitLiteralLoad12, High, Low, AddressOf;
      next := EmitLong(at, EmitLiteralLoad12(AddressOf(base, at), reg, AddressOf(base, m_pbPool)));
    }

    method EmitLongLiteral(at: nat, reg: Reg, target: bv32) returns (next: nat)
      requires at + 6 <= m_pbPool <= rbCode.Length
      modifies this`m_pbPool, rbCode
      ensures m_pbPool == old(m_pbPool) - 2
      ensures var k := EmitLongLiteralLoad(AddressOf(base, at), reg, target, AddressOf(base, m_pbPool));
              Fits(old(rbCode[..]), at, old(m_pbPool), k) && next == at + |k.code|
              && rbCode[..] == WithCopied(old(rbCode[..]), at, old(m_pbPool), k)
    {
      hide Fetch, EmitLiteralLoad12, High, Low, AddressOf, EmitImmediateRegisterLoad, LdrNoOffset, LdrNoOffsetW, IsLowReg, PC, Written, WithCopied;
      ghost var b, pool := rbCode[..], m_pbPool;
      PushPool(target);
      ghost var b1 := rbCode[..];
      next := EmitLiteral12(at, reg);
      var load := if reg != PC then EmitImmediateRegisterLoad(reg) else [];
      ImmediateRegisterLength(reg);
      if reg != PC { next := EmitImmediateRegister(next, reg); }
      ghost var word := Halves(EmitLiteralLoad12(AddressOf(base, at), reg, AddressOf(base, m_pbPool)));
      ghost var k := Copied(word + load, [target]);
      LoadWritten(b1, at, word, load, rbCode[..]);
      CodeAfterPool(b, at, pool, k);
    }

    method EmitLongBranchTo(at: nat, target: Addr) returns (next: nat, size: bv32)
      requires at + 4 <= m_pbPool <= rbCode.Length
      modifies this`m_pbPool, rbCode
      ensures size == 4 && m_pbPool == old(m_pbPool) - 2
      ensures next == at + |EmitLongBranch(AddressOf(base, at), target, AddressOf(base, m_pbPool)).code|
      ensures Wrote(at, EmitLongBranch(AddressOf(base, at), target, AddressOf(base, m_pbPool)))
    {
      hide Fetch, EmitLiteralLoad12, High, Low, AddressOf, WithBit0, PC, Written;
      ghost var b, pool := rbCode[..], m_pbPool;
      PushPool(WithBit0(target));
      ghost var b1 := rbCode[..];
      next := EmitLiteral12(at, PC);
      size := 4;
      LongBranchIs(AddressOf(base, at), target, AddressOf(base, m_pbPool));
      CodeAfterPool(b, at, pool, EmitLongBranch(AddressOf(base, at), target, AddressOf(base, m_pbPool)));
    }

    /** `k` has been written at `at`, and nothing else has changed in the buffer. */
    twostate predicate Wrote(at: nat, k: Copied)
      reads this, rbCode
    {
      && Fits(old(rbCode[..]), at, old(m_pbPool), k)
      && rbCode[..] == WithCopied(old(rbCode[..]), at, old(m_pbPool), k)
      && m_pbPool == old(m_pbPool) - |PoolHalves(k.pool)|
    }

    method CopyMiscellaneous16(src: Addr, at: nat, op: Half)
      requires HasRoom(at) && m_lExtra == 0 && IsCbz(op)
      modifies this, rbCode
      ensures Wrote(at, CopyCbz(src, AddressOf(base, at), op, AddressOf(base, old(m_pbPool) - 2)))
      ensures m_pbTarget == BranchTarget(src, DecodeBranch5(op))
      ensures m_lExtra == Extra(CopyCbz(src, AddressOf(base, at), op, AddressOf(base, old(m_pbPool) - 2)), 2)
    {
      hide Fetch, EmitLongBranch, High, Low, BranchTarget, Minus, ReadPc, Plus, Fits5, EncodeBranch5, InvertedCbz, DecodeBranch5, IsCbz, WithCopied, Written;
      ghost var b, pool, dst := rbCode[..], m_pbPool, AddressOf(base, at);
      m_pbTarget := BranchTarget(src, DecodeBranch5(op));
      var newDelta := Minus(m_pbTarget, ReadPc(AddressOf(base, at)));
      if Fits5(newDelta) {
        var _ := EmitShort(at, EncodeBranch5(op, newDelta));
        NoPool(b, at, pool, [EncodeBranch5(op, newDelta)]);
        return;
      }
      assert AddressOf(base, at + 1) == Plus(dst, 2);
      var next, longBranchSize := EmitLongBranchTo(at + 1, m_pbTarget);
      ghost var long := EmitLongBranch(AddressOf(base, at + 1), m_pbTarget, AddressOf(base, m_pbPool));
      assert longBranchSize - 4 + 2 == 2 by { LongBranchSkip(longBranchSize); }
      var _ := EmitShort(at, InvertedCbz(EncodeBranch5(op, longBranchSize - 4 + 2)));
      PrefixWritten(b, at, pool, [InvertedCbz(EncodeBranch5(op, 2))], long);
      m_lExtra := CalculateExtra(2, at, next);
    }

    /** The unconditional branch over a long branch, written after it. */
    method EmitOver(at: nat, target: Addr) returns (next: nat)
      requires at + 5 <= m_pbPool <= rbCode.Length
      modifies this`m_pbPool, rbCode
      ensures m_pbPool == old(m_pbPool) - 2
      ensures var long := EmitLongBranch(AddressOf(base, at + 1), target, AddressOf(base, m_pbPool));
              Wrote(at, Copied([OVER] + long.code, long.pool)) && next == at + 1 + |long.code|
    {
      hide Fetch, EmitLongBranch, High, Low, AddressOf, EncodeBranch11, WithCopied, Written, OVER;
      ghost var b, pool := rbCode[..], m_pbPool;
      var longBranchSize: bv32;
      next, longBranchSize := EmitLongBranchTo(at + 1, target);
      ghost var long := EmitLongBranch(AddressOf(base, at + 1), target, AddressOf(base, m_pbPool));
      assert longBranchSize - 4 + 2 == 2 by { LongBranchSkip(longBranchSize); }
      OverIs();
      var _ := EmitShort(at, EncodeBranch11(0xe000, longBranchSize - 4 + 2));
      PrefixWritten(b, at, pool, [OVER], long);
    }

    method CopyConditionalBranchOrOther16(src: Addr, at: nat, op: Half)
      requires HasRoom(at) && m_lExtra == 0 && IsBCond(op)
      modifies this, rbCode
      ensures Wrote(at, CopyBCond(src, AddressOf(base, at), op, AddressOf(base, old(m_pbPool) - 2)))
      ensures m_pbTarget == BranchTarget(src, DecodeBranch8(op))
      ensures m_lExtra == Extra(CopyBCond(src, AddressOf(base, at), op, AddressOf(base, old(m_pbPool) - 2)), 2)
    {
      hide Fetch, EmitLongBranch, High, Low, BranchTarget, Minus, ReadPc, Plus, Fits8, EncodeBranch8, DecodeBranch8, IsBCond, WithCopied, Written, OVER;
      ghost var b, pool, dst := rbCode[..], m_pbPool, AddressOf(base, at);
      m_pbTarget := BranchTarget(src, DecodeBranch8(op));
      var newDelta := Minus(m_pbTarget, ReadPc(AddressOf(base, at)));
      if Fits8(newDelta) {
        var _ := EmitShort(at, EncodeBranch8(op, newDelta));
        NoPool(b, at, pool, [EncodeBranch8(op, newDelta)]);
        return;
      }
      var next := EmitShort(at, EncodeBranch8(op, 0));
      next := EmitOver(next, m_pbTarget);
      assert AddressOf(base, at + 2) == Plus(dst, 4) by { TwoOn(base, at); }
      ghost var long := EmitLongBranch(Plus(dst, 4), m_pbTarget, AddressOf(base, m_pbPool));
      ThenWritten(b, at, pool, [EncodeBranch8(op, 0)], Copied([OVER] + long.code, long.pool));
      assert [EncodeBranch8(op, 0)] + ([OVER] + long.code) == [EncodeBranch8(op, 0), OVER] + long.code;
      m_lExtra := CalculateExtra(2, at, next);
    }

    method CopyUnConditionalBranch16(src: Addr, at: nat, op: Half)
      requires HasRoom(at) && m_lExtra == 0 && IsB(op)
      modifies this, rbCode
      ensures Wrote(at, CopyB(src, AddressOf(base, at), op, AddressOf(base, old(m_pbPool) - 2)))
      ensures m_pbTarget == BranchTarget(src, DecodeBranch11(op))
      ensures m_lExtra == Extra(CopyB(src, AddressOf(base, at), op, AddressOf(base, old(m_pbPool) - 2)), 2)
    {
      hide Fetch, EmitLongBranch, High, Low, BranchTarget, Minus, ReadPc, Plus, Fits11, Fits24, EncodeBranch11, EncodeBranch24, DecodeBranch11, IsB,
           WithCopied, Written, B_W, AddressOf;
      ghost var b, pool := rbCode[..], m_pbPool;
      m_pbTarget := BranchTarget(src, DecodeBranch11(op));
      var newDelta := Minus(m_pbTarget, ReadPc(AddressOf(base, at)));
      if Fits11(newDelta) {
        var _ := EmitShort(at, EncodeBranch11(op, newDelta));
        NoPool(b, at, pool, [EncodeBranch11(op, newDelta)]);
        return;
      }
      if Fits24(newDelta) {
        var _ := EmitLong(at, EncodeBranch24(B_W, newDelta));
        NoPool(b, at, pool, Halves(EncodeBranch24(B_W, newDelta)));
        m_lExtra := 4 - 2;
        return;
      }
      var next, _ := EmitLongBranchTo(at, m_pbTarget);
      m_lExtra := CalculateExtra(2, at, next);
    }

    method CopyBranch24(src: Addr, at: nat, op: Long)
      requires HasRoom(at) && m_lExtra == 0 && IsBW(op)
      modifies this, rbCode
      ensures Wrote(at, CopyBW(src, AddressOf(base, at), op, AddressOf(base, old(m_pbPool) - 2)))
      ensures m_pbTarget == BranchTarget(src, DecodeBranch24(op))
      ensures m_lExtra == Extra(CopyBW(src, AddressOf(base, at), op, AddressOf(base, old(m_pbPool) - 2)), 4)
    {
      hide Fetch, EmitLongBranch, High, Low, BranchTarget, Minus, ReadPc, Plus, Fits24, EncodeBranch24, DecodeBranch24, IsBW, WithCopied, Written, AddressOf;
      ghost var b, pool := rbCode[..], m_pbPool;
      m_pbTarget := BranchTarget(src, DecodeBranch24(op));
      var newDelta := Minus(m_pbTarget, ReadPc(AddressOf(base, at)));
      if Fits24(newDelta) {
        var _ := EmitLong(at, EncodeBranch24(op, newDelta));
        NoPool(b, at, pool, Halves(EncodeBranch24(op, newDelta)));
        return;
      }
      var next, _ := EmitLongBranchTo(at, m_pbTarget);
      m_lExtra := CalculateExtra(4, at, next);
    }

    method CopyConditionalBranch32(src: Addr, at: nat, op: Long)
      requires HasRoom(at) && m_lExtra == 0 && LooksLikeBCondW(op)
      modifies this, rbCode
      ensures Wrote(at, CopyBCondW(src, AddressOf(base, at), op, AddressOf(base, old(m_pbPool) - 2)))
      ensures m_pbTarget == BranchTarget(src, DecodeBranch20(op))
      ensures m_lExtra == Extra(CopyBCondW(src, AddressOf(base, at), op, AddressOf(base, old(m_pbPool) - 2)), 4)
    {
      hide Fetch, EmitLongBranch, High, Low, BranchTarget, Minus, ReadPc, Plus, Fits20, EncodeBranch20, DecodeBranch20, LooksLikeBCondW, WithCopied, Written, OVER;
      ghost var b, pool, dst := rbCode[..], m_pbPool, AddressOf(base, at);
      m_pbTarget := BranchTarget(src, DecodeBranch20(op));
      var newDelta := Minus(m_pbTarget, ReadPc(AddressOf(base, at)));
      if Fits20(newDelta) {
        var _ := EmitLong(at, EncodeBranch20(op, newDelta));
        NoPool(b, at, pool, Halves(EncodeBranch20(op, newDelta)));
        return;
      }
      var next := EmitLong(at, EncodeBranch20(op, 2));
      next := EmitOver(next, m_pbTarget);
      assert AddressOf(base, at + 3) == Plus(dst, 6) by { TwoOn(base, at); Plus42(dst); }
      ghost var word, long := Halves(EncodeBranch20(op, 2)), EmitLongBranch(Plus(dst, 6), m_pbTarget, AddressOf(base, m_pbPool));
      ThenWritten(b, at, pool, word, Copied([OVER] + long.code, long.pool));
      assert word + ([OVER] + long.code) == word + [OVER] + long.code;
      m_lExtra := CalculateExtra(4, at, next);
    }

    method CopyBranchLink(src: Addr, at: nat, op: Long)
      requires HasRoom(at) && m_lExtra == 0 && IsBl(op)
      modifies this, rbCode
      ensures Wrote(at, CopyBl(src, AddressOf(base, at), op, AddressOf(base, old(m_pbPool) - 2)))
      ensures m_pbTarget == BranchTarget(src, DecodeBranch24(op))
      ensures m_lExtra == Extra(CopyBl(src, AddressOf(base, at), op, AddressOf(base, old(m_pbPool) - 2)), 4)
    {
      hide Fetch, EmitLiteralLoad12, High, Low, BranchTarget, DecodeBranch24, IsBl, WithCopied, Written, AddressOf, BLX_LR, LR, WithBit0;
      ghost var b, pool := rbCode[..], m_pbPool;
      m_pbTarget := BranchTarget(src, DecodeBranch24(op));
      PushPool(WithBit0(m_pbTarget));
      ghost var b1 := rbCode[..];
      var next := EmitLiteral12(at, LR);
      next := EmitShort(next, BLX_LR);
      ghost var word := Halves(EmitLiteralLoad12(AddressOf(base, at), LR, AddressOf(base, m_pbPool)));
      WrittenTwice(b1, at, word, [BLX_LR]);
      CodeAfterPool(b, at, pool, Copied(word + [BLX_LR], [WithBit0(m_pbTarget)]));
      m_lExtra := CalculateExtra(4, at, next);
    }

    method CopyLiteralLoad(at: nat, reg: Reg, target: Addr, size: nat)
      requires HasRoom(at) && (size == 2 || size == 4)
      modifies this`m_pbPool, this`m_lExtra, rbCode
      ensures var k := EmitLongLiteralLoad(AddressOf(base, at), reg, target, AddressOf(base, old(m_pbPool) - 2));
              Wrote(at, k) && m_lExtra == Extra(k, size)
    {
      hide Fetch, EmitLongLiteralLoad, WithCopied, AddressOf;
      var next := EmitLongLiteral(at, reg, target);
      LongLiteralLength(AddressOf(base, at), reg, target, AddressOf(base, m_pbPool));
      m_lExtra := 2 * (next - at) - size;
    }

    /** Copies one instruction; the result is how many halfwords it took at the source. Of IT nothing is
      * written, and a table branch on the program counter stops the original.
      */
    method CopyInstruction(src: Addr, at: nat, h: Half, g: Half) returns (length: nat)
      requires HasRoom(at) && m_lExtra == 0 && (IsLong(h) ==> !IsTableBranchHere(Join(h, g)))
      modifies this, rbCode
      ensures length == if IsLong(h) then 2 else 1
      ensures !IsLong(h) && IsIt(h) ==> rbCode[..] == old(rbCode[..])
      ensures IsLong(h) || !IsIt(h) ==>
                var k := ThumbCopy.CopyInstruction(src, AddressOf(base, at), h, g, AddressOf(base, old(m_pbPool) - 2));
                Wrote(at, k) && m_lExtra == Extra(k, 2 * length)
    {
      hide Fetch, IsLong, Join, CopyShort, CopyLong, WithCopied, AddressOf, IsIt, IsTableBranchHere;
      if IsLong(h) {
        length := 2;
        CopyLongInstruction(src, at, Join(h, g));
      } else {
        length := 1;
        if IsIt(h) { return; }
        CopyShortInstruction(src, at, h);
      }
    }

    method CopyShortInstruction(src: Addr, at: nat, h: Half)
      requires HasRoom(at) && m_lExtra == 0
      modifies this, rbCode
      ensures var k := CopyShort(src, AddressOf(base, at), h, AddressOf(base, old(m_pbPool) - 2)); Wrote(at, k) && m_lExtra == Extra(k, 2)
    {
      hide Fetch, CopyCbz, CopyBCond, CopyB, EmitLongLiteralLoad, IsCbz, IsBCond, IsB, IsLdrLiteral, WithCopied, AddressOf, Plus, ReadPc, Align4, Written;
      ghost var b, pool := rbCode[..], m_pbPool;
      if IsCbz(h) {
        CopyMiscellaneous16(src, at, h);
      } else if IsBCond(h) {
        CopyConditionalBranchOrOther16(src, at, h);
      } else if IsB(h) {
        CopyUnConditionalBranch16(src, at, h);
      } else if IsLdrLiteral(h) {
        CopyLiteralLoad(at, LiteralReg(h), Plus(ReadPc(Align4(src)), Literal8(h)), 2);
      } else {
        var _ := EmitShort(at, h);
        NoPool(b, at, pool, [h]);
      }
    }

    method CopyLongInstruction(src: Addr, at: nat, w: Long)
      requires HasRoom(at) && m_lExtra == 0
      modifies this, rbCode
      ensures var k := CopyLong(src, AddressOf(base, at), w, AddressOf(base, old(m_pbPool) - 2)); Wrote(at, k) && m_lExtra == Extra(k, 4)
    {
      hide Fetch, CopyBCondW, CopyBW, CopyBl, EmitLongLiteralLoad, IsBW, IsBl, LooksLikeBCondW, LooksLikeLiteral, WithCopied, AddressOf, Plus, ReadPc,
           Align4, Written, High, Low;
      ghost var b, pool := rbCode[..], m_pbPool;
      if LooksLikeLiteral(w) {
        CopyLiteralLoad(at, LiteralRegW(w), Plus(ReadPc(Align4(src)), Literal12(w)), 4);
      } else if LooksLikeBCondW(w) {
        CopyConditionalBranch32(src, at, w);
      } else if IsBW(w) {
        CopyBranch24(src, at, w);
      } else if IsBl(w) {
        CopyBranchLink(src, at, w);
      } else {
        var _ := EmitLong(at, w);
        NoPool(b, at, pool, Halves(w));
      }
    }

    method CalculateExtra(sourceLength: nat, start: nat, end: nat) returns (extra: nat)
      requires start <= end
      ensures extra == if 2 * (end - start) > sourceLength then 2 * (end - start) - sourceLength else 0
    {
      var destinationLength := 2 * (end - start);
      extra := if destinationLength > sourceLength then destinationLength - sourceLength else 0;
    }
  }

  /** How many bytes longer than the instruction its copy is. */
  function Extra(k: Copied, size: nat): nat { if 2 * |k.code| > size then 2 * |k.code| - size else 0 }

  lemma LongLiteralLength(dst: Addr, reg: Reg, target: bv32, pool: Addr)
    ensures var k := EmitLongLiteralLoad(dst, reg, target, pool); 2 <= |k.code| <= 4 && |k.pool| == 1
  {
    ImmediateRegisterLength(reg);
  }

  lemma OverIs()
    ensures EncodeBranch11(0xe000, 2) == OVER
  {}

  lemma TwoOn(base: Addr, at: nat)
    ensures AddressOf(base, at + 2) == Plus(AddressOf(base, at), 4)
  {
    hide Fetch, Plus;
    assert AddressOf(base, at + 2) == Plus(AddressOf(base, at + 1), 2);
    Plus22(AddressOf(base, at));
  }

  lemma LongBranchSkip(size: bv32)
    requires size == 4
    ensures size - 4 + 2 == 2
  {}

  lemma ImmediateRegisterLength(reg: Reg)
    ensures 1 <= |EmitImmediateRegisterLoad(reg)| <= 2
  {}

  lemma LoadWritten(b: seq<Half>, at: nat, word: seq<Half>, load: seq<Half>, c: seq<Half>)
    requires at + |word| + |load| <= |b|
    requires c == if load == [] then Written(b, at, word) else Written(Written(b, at, word), at + |word|, load)
    ensures c == Written(b, at, word + load)
  {
    WrittenTwice(b, at, word, load);
    assert word + [] == word;
  }
}
