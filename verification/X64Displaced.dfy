/** Which instructions of an x64 function the copy loop displaces, and which padding behind them it consumes
  * (detours/src/detours.cpp:454-540, 2168-2213), after the decoder of X64Length.
  */
module X64Displaced {
  import opened PayloadLayout
  import opened X64Copy
  import opened X64Simulation
  import opened X64Length
  import opened X64Sizes
  import opened X64Trampoline

  // --------------------------------------------------------------- The end of a function

  /** After these nothing runs on: direct jumps, RET and INT3 without a prefix, REP RET, and jumps through
    * memory with at most a segment prefix. The code takes LOOPNE for one of them.
    */
  predicate Ends(s: seq<byte>) {
    || IsLeaving(s)
    || [0xc2] <= s || [0xc3] <= s || [0xcc] <= s || [0xf3, 0xc3] <= s
    || [0xff, 0x25] <= s
    || (|s| > 0 && (s[0] == 0x26 || s[0] == 0x2e || s[0] == 0x36 || s[0] == 0x3e || s[0] == 0x64 || s[0] == 0x65) && [0xff, 0x25] <= s[1..])
  }

  /** A jump to a displacement, or LOOPNE. */
  predicate IsLeaving(s: seq<byte>) {
    s != [] && !IsPrefix(s[0]) && BranchAt(s, 0).Some? && (BranchAt(s, 0).value.flow == Jmp || BranchAt(s, 0).value.flow == Loop(0))
  }

  lemma EndsFunctionIs(s: seq<byte>)
    requires Instruction(s, NOTHING).Some? && Instruction(s, NOTHING).value.size <= |s|
    ensures EndsFunction(s) <==> Ends(s)
  {
    hide Signed;
    if !IsPrefix(s[0]) {
      assert Instruction(s, NOTHING) == Opcode(s, NOTHING);
      LeavingSize(s);
    }
  }

  lemma LeavingSize(s: seq<byte>)
    requires s != [] && !IsPrefix(s[0]) && Opcode(s, NOTHING).Some? && Opcode(s, NOTHING).value.size <= |s|
    ensures IsLeaving(s) <==> s[0] == 0xeb || s[0] == 0xe9 || s[0] == 0xe0
  {
    hide Signed;
  }

  /** LOOPNE falls through when it is not taken, and yet it ends the loop after its two bytes. */
  lemma LoopneEnds(code: seq<byte>, src: int, dst: int)
    requires |code| >= 2 && code[0] == 0xe0
    ensures BranchAt(code, src) == Some(Branch(Loop(0), src + 2 + Signed(code[1..2]), 2))
    ensures Read(Displaced(code, src, dst, 0, 0)) == 2
  {
    assert code[0..] == code && EndsFunction(code);
    LoopneIsKnown(code);
    hide CopyInstruction, Displaced, Read, EndsFunction, GrowsWell, Signed, Instruction, Mistaken, RexLast;
    SizeIsLength(code, src, dst);
    NextDisplaced(code, src, dst, 0, 0);
    CursorStep(Displaced(code, src, dst, 0, 0), 0);
    NothingRead();
  }

  lemma LoopneIsKnown(code: seq<byte>)
    requires |code| >= 2 && code[0] == 0xe0
    ensures Instruction(code, NOTHING).Some? && Instruction(code, NOTHING).value.size == 2 && RexLast(code) && !Mistaken(code)
  {
    assert Instruction(code, NOTHING) == Opcode(code, NOTHING);
  }

  // ------------------------------------------------------------------------ The copy loop

  /** From a byte of a function on, up to the bytes of a jump or its end, the instructions are known and not
    * mistaken.
    */
  ghost predicate Known(code: seq<byte>, from: nat)
    requires from <= |code|
    decreases SIZE_OF_JMP - from
  {
    from >= SIZE_OF_JMP
    || var s := code[from..];
       && Instruction(s, NOTHING).Some? && Instruction(s, NOTHING).value.size <= |s| && RexLast(s) && !Mistaken(s)
       && (Ends(s) || Known(code, from + Instruction(s, NOTHING).value.size))
  }

  /** [from, to) are the instructions up to the first that ends the function or reaches the fifth byte. */
  ghost predicate ToTheEnd(code: seq<byte>, from: nat, to: nat)
    decreases to - from
  {
    && from < to && from < |code| && Instruction(code[from..], NOTHING).Some?
    && var next := from + Instruction(code[from..], NOTHING).value.size;
       next <= to && if Ends(code[from..]) || next >= 5 then next == to else ToTheEnd(code, next, to)
  }

  /** The loop displaces whole instructions, up to the bytes of a jump or the end of the function and no
    * further.
    */
  lemma {:induction false} DisplacedWhole(code: seq<byte>, src: int, dst: int, read: nat, at: int)
    requires read <= |code| && read < SIZE_OF_JMP && Known(code, read)
    ensures ToTheEnd(code, read, read + Read(Displaced(code, src, dst, read, at))) && read + Read(Displaced(code, src, dst, read, at)) <= |code|
    decreases SIZE_OF_JMP - read
  {
    hide Displaced, Read, Instruction, RexLast, Mistaken, EndsFunction, Ends, CopyInstruction, GrowsWell;
    var s := code[read..];
    SizeIsLength(s, src + read, dst + at);
    EndsFunctionIs(s);
    NextDisplaced(code, src, dst, read, at);
    var cs := Displaced(code, src, dst, read, at);
    CursorStep(cs, at);
    var next := read + cs[0].cbSrc;
    if EndsFunction(s) {
      NothingRead();
    } else if next >= SIZE_OF_JMP {
      NothingMore(code, src, dst, next, at + Step(cs[0]));
      NothingRead();
    } else {
      DisplacedWhole(code, src, dst, next, at + Step(cs[0]));
    }
  }

  lemma NothingRead()
    ensures Read([]) == 0
  {}

  // ----------------------------------------------------------------------------- Padding

  /** detour_is_code_filler. */
  function Filler(s: seq<byte>): nat {
    if [0x90] <= s then 1
    else if [0x66, 0x90] <= s then 2
    else if [0x0f, 0x1f, 0x00] <= s then 3
    else if [0x0f, 0x1f, 0x40, 0x00] <= s then 4
    else if [0x0f, 0x1f, 0x44, 0x00, 0x00] <= s then 5
    else if [0x66, 0x0f, 0x1f, 0x44, 0x00, 0x00] <= s then 6
    else if [0x0f, 0x1f, 0x80, 0x00, 0x00, 0x00, 0x00] <= s then 7
    else if [0x0f, 0x1f, 0x84, 0x00, 0x00, 0x00, 0x00, 0x00] <= s then 8
    else if [0x66, 0x0f, 0x1f, 0x84, 0x00, 0x00, 0x00, 0x00, 0x00] <= s then 9
    else if [0x66, 0x66, 0x0f, 0x1f, 0x84, 0x00, 0x00, 0x00, 0x00, 0x00] <= s then 10
    else if [0x66, 0x66, 0x66, 0x0f, 0x1f, 0x84, 0x00, 0x00, 0x00, 0x00, 0x00] <= s then 11
    else if [0xcc] <= s then 1
    else 0
  }

  /** The recommended NOP of `n` bytes (Intel Software Developer's Manual, volume 2B, table 4-12), continued by
    * operand size prefixes.
    */
  function Nop(n: nat): (s: seq<byte>)
    requires 1 <= n <= 11
    ensures |s| == n
  {
    if n == 1 then [0x90]
    else if n == 3 then [0x0f, 0x1f, 0x00]
    else if n == 4 then [0x0f, 0x1f, 0x40] + Zeros(1)
    else if n == 5 then [0x0f, 0x1f, 0x44] + Zeros(2)
    else if n == 7 then [0x0f, 0x1f, 0x80] + Zeros(4)
    else if n == 8 then [0x0f, 0x1f, 0x84] + Zeros(5)
    else [0x66] + Nop(n - 1)
  }

  /** NOP or INT3. */
  ghost predicate IsFiller(s: seq<byte>) { [0xcc] <= s || exists n: nat | 1 <= n <= 11 :: Nop(n) <= s }

  lemma ShortNops()
    ensures Nop(1) == [0x90] && Nop(2) == [0x66, 0x90] && Nop(3) == [0x0f, 0x1f, 0x00] && Nop(4) == [0x0f, 0x1f, 0x40, 0x00]
    ensures Nop(5) == [0x0f, 0x1f, 0x44, 0x00, 0x00] && Nop(6) == [0x66, 0x0f, 0x1f, 0x44, 0x00, 0x00]
  {}

  lemma LongNops()
    ensures Nop(7) == [0x0f, 0x1f, 0x80, 0x00, 0x00, 0x00, 0x00]
    ensures Nop(8) == [0x0f, 0x1f, 0x84, 0x00, 0x00, 0x00, 0x00, 0x00]
    ensures Nop(9) == [0x66, 0x0f, 0x1f, 0x84, 0x00, 0x00, 0x00, 0x00, 0x00]
    ensures Nop(10) == [0x66, 0x66, 0x0f, 0x1f, 0x84, 0x00, 0x00, 0x00, 0x00, 0x00]
    ensures Nop(11) == [0x66, 0x66, 0x66, 0x0f, 0x1f, 0x84, 0x00, 0x00, 0x00, 0x00, 0x00]
  {}

  lemma FillerIsNop(s: seq<byte>)
    requires Filler(s) > 0
    ensures Filler(s) <= 11 && ((Filler(s) == 1 && [0xcc] <= s) || Nop(Filler(s)) <= s)
  {
    hide Nop;
    ShortNops();
    LongNops();
  }

  lemma NopIsFiller(n: nat, s: seq<byte>)
    requires 1 <= n <= 11 && Nop(n) <= s
    ensures Filler(s) > 0
  {
    hide Nop;
    ShortNops();
    LongNops();
  }

  lemma {:induction false} NopSize(n: nat, s: seq<byte>, e: Seen)
    requires 1 <= n <= 11 && Nop(n) <= s
    ensures Instruction(s, e).Some? && Instruction(s, e).value.size == n
  {
    if n == 1 || n == 3 || n == 4 || n == 5 || n == 7 || n == 8 {
      OneNop(n, s, e);
    } else {
      assert Nop(n)[1..] == Nop(n - 1) && s[0] == 0x66;
      NopSize(n - 1, s[1..], After(e, 0x66));
    }
  }

  lemma OneNop(n: nat, s: seq<byte>, e: Seen)
    requires n == 1 || n == 3 || n == 4 || n == 5 || n == 7 || n == 8
    requires Nop(n) <= s
    ensures Instruction(s, e).Some? && Instruction(s, e).value.size == n
  {
    assert s[0] == Nop(n)[0];
    assert Instruction(s, e) == Opcode(s, e);
    if n > 1 {
      assert s[1] == Nop(n)[1] && s[2] == Nop(n)[2];
      assert TwoByte(s, e) == Modded(s, 2, 0);
      if n == 5 || n == 8 { assert s[3] == Nop(n)[3]; }
    }
  }

  /** The filler is the padding of NOP and INT3 instructions, with the size of the instruction. */
  lemma FillerIs(s: seq<byte>)
    ensures Filler(s) > 0 <==> IsFiller(s)
    ensures Filler(s) > 0 ==> Filler(s) <= |s| && Instruction(s, NOTHING).Some? && Instruction(s, NOTHING).value.size == Filler(s)
  {
    hide Nop, Filler, Instruction;
    if Filler(s) > 0 {
      FillerIsNop(s);
      if Nop(Filler(s)) <= s { NopSize(Filler(s), s, NOTHING); } else { BreakSize(s, NOTHING); }
    }
    if [0xcc] <= s { BreakSize(s, NOTHING); }
    if n: nat :| 1 <= n <= 11 && Nop(n) <= s { NopIsFiller(n, s); }
  }

  lemma BreakSize(s: seq<byte>, e: Seen)
    requires [0xcc] <= s
    ensures Filler(s) > 0 && Instruction(s, e).Some? && Instruction(s, e).value.size == 1
  {
    assert s[0] == 0xcc && Instruction(s, e) == Opcode(s, e);
  }

  /** [from, to) is padding that is needed for five bytes, as much of it as there is and no more. */
  ghost predicate Padding(code: seq<byte>, from: nat, to: nat)
    requires from <= |code|
    decreases |code| - from
  {
    if from >= 5 || !IsFiller(code[from..]) then from == to
    else
      && from < to && Instruction(code[from..], NOTHING).Some?
      && var next := from + Instruction(code[from..], NOTHING).value.size;
         next <= to && next <= |code| && Padding(code, next, to)
  }

  /** The loop that consumes padding; the attach fails if the result is less than five. */
  method SkipFiller(code: seq<byte>, displaced: nat) returns (cbTarget: nat)
    requires displaced <= |code|
    ensures cbTarget <= |code| && Padding(code, displaced, cbTarget)
  {
    hide Filler, IsFiller, Instruction;
    cbTarget := displaced;
    while cbTarget < SIZE_OF_JMP
      invariant displaced <= cbTarget <= |code|
      invariant forall to: nat | Padding(code, cbTarget, to) :: Padding(code, displaced, to)
      decreases SIZE_OF_JMP - cbTarget
    {
      var cFiller := Filler(code[cbTarget..]);
      FillerIs(code[cbTarget..]);
      if cFiller == 0 { break; }
      cbTarget := cbTarget + cFiller;
    }
  }
}
