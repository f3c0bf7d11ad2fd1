/** What a copied x64 instruction means at its new address: lengths and targets do not depend on the
  * destination, and direct branches reach their original target exactly when the new displacement
  * fits (detours/src/disasm.cpp:342-574; branch formats of the Intel Software Developer's Manual,
  * volume 2A, section 2.1).
  */
module X64Simulation {
  import opened PayloadLayout
  import opened X64Copy

  // ---------------------------------------------------------------------- Numbers

  lemma {:induction false} UnsignedBound(s: seq<byte>)
    ensures 0 <= Unsigned(s) < Power(|s|)
  {
    if s != [] {
      UnsignedBound(s[1..]);
    }
  }

  /** The bytes of a number hold it modulo the size of the field. */
  lemma {:induction false} LittleEndianIs(n: nat, x: int)
    ensures exists k: int :: Unsigned(LittleEndian(n, x)) == x - k * Power(n)
  {
    if n == 0 {
      assert Unsigned(LittleEndian(n, x)) == x - x * Power(0);
    } else {
      LittleEndianIs(n - 1, x / 0x100);
      var k: int :| Unsigned(LittleEndian(n - 1, x / 0x100)) == x / 0x100 - k * Power(n - 1);
      var s := LittleEndian(n, x);
      assert s[1..] == LittleEndian(n - 1, x / 0x100);
      assert Unsigned(s) == x % 0x100 + 0x100 * (x / 0x100 - k * Power(n - 1));
      assert 0x100 * (k * Power(n - 1)) == k * Power(n);
      assert Unsigned(s) == x - k * Power(n);
    }
  }

  lemma MultipleBounds(k: int, p: int)
    requires p > 0
    ensures k >= 1 ==> k * p >= p
    ensures k <= -2 ==> k * p <= -2 * p
  {}

  /** A signed field gives a number back exactly if it fits. */
  lemma SignedRoundTrip(n: nat, x: int)
    ensures Signed(LittleEndian(n, x)) == x <==> Fits(n, x)
  {
    var u, p: int := Unsigned(LittleEndian(n, x)), Power(n);
    UnsignedBound(LittleEndian(n, x));
    LittleEndianIs(n, x);
    var k: int :| u == x - k * p;
    MultipleBounds(k, p);
  }

  // ------------------------------------------------------- What does not change

  /** The result without what depends on the destination. */
  ghost predicate SameMeasure(a: Option<Copied>, b: Option<Copied>) {
    && (a.Some? <==> b.Some?)
    && (a.Some? ==> a.value.cbSrc == b.value.cbSrc && a.value.target == b.value.target && |a.value.bytes| == |b.value.bytes|)
  }

  lemma MeasureBytes(e: CopyEntry, o: Overrides, code: seq<byte>, src: int, dst: int, dst1: int)
    requires e.CopyBytes? && (e.nModOffset > 0 ==> e.nRelOffset == 0)
    ensures SameMeasure(CopyBytesOf(e, o, code, src, dst), CopyBytesOf(e, o, code, src, dst1))
  {}

  /** Measuring an instruction is copying it: the size, the reported target and the room the copy takes
    * are the same for every destination, whatever prefixes stand in front.
    */
  lemma {:induction false} MeasureCopy(e: CopyEntry, o: Overrides, code: seq<byte>, src: int, dst: int, dst1: int)
    ensures SameMeasure(Copy(e, o, code, src, dst), Copy(e, o, code, src, dst1))
    decreases |code|, if e.CopyBytes? then 0 else 1
  {
    hide CopyTable, CopyTable0F, CopyBytesOf, LittleEndian, Signed;
    if code == [] {
    } else {
      match e
      case CopyBytes(_, _, _, _, _) => if !(e.nModOffset > 0 && e.nRelOffset > 0) { MeasureBytes(e, o, code, src, dst, dst1); }
      case CopyBytesJump =>
      case CopyBytesPrefix => MeasurePrefixed(o, code, src, dst, dst1);
      case CopyBytesSegment => MeasurePrefixed(o.(segment := code[0]), code, src, dst, dst1);
      case CopyBytesRax => MeasurePrefixed(o.(rax := o.rax || code[0] / 8 % 2 == 1), code, src, dst, dst1);
      case Copy66 => MeasurePrefixed(o.(operand := true), code, src, dst, dst1);
      case Copy67 => MeasurePrefixed(o.(address := true), code, src, dst, dst1);
      case CopyF2 => MeasurePrefixed(o.(f2 := true), code, src, dst, dst1);
      case CopyF3 => MeasurePrefixed(o.(f3 := true), code, src, dst, dst1);
      case Copy0F => if |code| >= 2 { MeasureCopy(CopyTable0F(code[1]), o, code[1..], src + 1, dst + 1, dst1 + 1); }
      case Copy0F78 => MeasureBytes(if o.f2 || o.operand then Bytes4 else Bytes2Mod, o, code, src, dst, dst1);
      case CopyF6 => if |code| >= 2 { MeasureBytes(if code[1] / 8 % 8 == 0 then Bytes2Mod1 else Bytes2Mod, o, code, src, dst, dst1); }
      case CopyF7 => if |code| >= 2 { MeasureBytes(if code[1] / 8 % 8 == 0 then Bytes2ModOperand else Bytes2Mod, o, code, src, dst, dst1); }
      case CopyFF => MeasureBytes(Bytes2Mod, o, code, src, dst, dst1);
      case CopyVex2 => if |code| >= 3 { MeasureVex(1, 2, code[1] % 4, o, code, src, dst, dst1); }
      case CopyVex3 => if |code| >= 4 { MeasureVex(code[1] % 0x20, 3, code[2] % 4, o.(rax := o.rax || code[2] >= 0x80), code, src, dst, dst1); }
      case CopyEvex =>
        if |code| >= 5 && !(code[1] / 8 % 2 == 1 || code[2] / 4 % 2 == 0) {
          MeasureVex(code[1] % 4 + code[1] / 4 % 2 * 4, 4, code[2] % 4, o.(rax := o.rax || code[2] >= 0x80), code, src, dst, dst1);
        }
      case CopyXop =>
        if |code| >= 2 {
          var m := code[1] % 0x20;
          MeasureBytes(if m == 8 then BytesXop1 else if m == 9 then BytesXop else if m == 10 then BytesXop4 else Bytes2Mod, o, code, src, dst, dst1);
        }
      case Invalid =>
    }
  }

  lemma {:induction false} MeasurePrefixed(o: Overrides, code: seq<byte>, src: int, dst: int, dst1: int)
    requires code != []
    ensures SameMeasure(Prefixed(o, code, src, dst), Prefixed(o, code, src, dst1))
    decreases |code|, 0
  {
    hide CopyTable;
    if |code| >= 2 {
      MeasureCopy(CopyTable(code[1]), o, code[1..], src + 1, dst + 1, dst1 + 1);
    }
  }

  lemma {:induction false} MeasureVex(m: nat, n: nat, p: nat, o: Overrides, code: seq<byte>, src: int, dst: int, dst1: int)
    requires 0 < n < |code|
    ensures SameMeasure(Vex(m, n, p, o, code, src, dst), Vex(m, n, p, o, code, src, dst1))
    decreases |code|, 0
  {
    hide CopyTable0F, CopyBytesOf;
    var o1 := if p == 1 then o.(operand := true) else if p == 2 then o.(f3 := true) else if p == 3 then o.(f2 := true) else o;
    var rest := code[n..];
    if m == 1 {
      MeasureCopy(CopyTable0F(rest[0]), o1, rest, src + n, dst + n, dst1 + n);
    } else if m == 2 || m == 5 || m == 6 {
      MeasureBytes(Bytes2Mod, o1, rest, src + n, dst + n, dst1 + n);
    } else if m == 3 {
      MeasureBytes(Bytes2Mod1, o1, rest, src + n, dst + n, dst1 + n);
    }
  }

  // ----------------------------------------------------------------- Branches

  /** Direct branches; `op` tells the LOOP forms and JRCXZ apart. */
  datatype Flow = Jmp | Jcc(cond: nat) | CallTo | Loop(op: nat)

  datatype Branch = Branch(flow: Flow, target: int, size: nat)

  /** Legacy and REX prefixes. */
  predicate IsPrefix(b: byte) {
    b == 0x26 || b == 0x2e || b == 0x36 || b == 0x3e || b == 0x64 || b == 0x65 || b == 0x66 || b == 0x67
    || b == 0xf0 || b == 0xf2 || b == 0xf3 || 0x40 <= b < 0x50
  }

  /** The direct branch that the bytes at an address begin with, as the processor reads it in 64-bit
    * mode: the displacement counts from the next instruction.
    */
  function BranchAt(s: seq<byte>, at: int): Option<Branch> {
    if s == [] then None
    else if IsPrefix(s[0]) then
      match BranchAt(s[1..], at + 1)
      case None => None
      case Some(b) => Some(b.(size := 1 + b.size))
    else if |s| >= 2 && s[0] == 0xeb then Some(Branch(Jmp, at + 2 + Signed(s[1..2]), 2))
    else if |s| >= 2 && 0x70 <= s[0] < 0x80 then Some(Branch(Jcc(s[0] % 0x10), at + 2 + Signed(s[1..2]), 2))
    else if |s| >= 2 && 0xe0 <= s[0] < 0xe4 then Some(Branch(Loop(s[0] % 4), at + 2 + Signed(s[1..2]), 2))
    else if |s| >= 5 && s[0] == 0xe8 then Some(Branch(CallTo, at + 5 + Signed(s[1..5]), 5))
    else if |s| >= 5 && s[0] == 0xe9 then Some(Branch(Jmp, at + 5 + Signed(s[1..5]), 5))
    else if |s| >= 6 && s[0] == 0x0f && 0x80 <= s[1] < 0x90 then Some(Branch(Jcc(s[1] % 0x10), at + 6 + Signed(s[2..6]), 6))
    else None
  }

  /** Bytes a branch's displacement has once it has been copied. */
  function Width(f: Flow): nat { if f.Loop? then 1 else 4 }

  /** The copy `c` of branch `b` is the same kind of branch. It has the original target exactly if that
    * is within reach of its displacement, and its length is what the extra length says.
    */
  ghost predicate Kept(b: Branch, c: Copied, dst: int) {
    var reach := Fits(Width(b.flow), b.target - (dst + |c.bytes|));
    && c.cbSrc == b.size && c.target == At(b.target)
    && BranchAt(c.bytes, dst).Some?
    && BranchAt(c.bytes, dst).value.flow == b.flow && BranchAt(c.bytes, dst).value.size == |c.bytes|
    && (BranchAt(c.bytes, dst).value.target == b.target <==> reach)
    && (if b.flow.Loop? then |c.bytes| == c.cbSrc && c.extra == (if reach then 0 else -3) else |c.bytes| == c.cbSrc + c.extra)
  }

  lemma OneField(front: seq<byte>, n: nat, x: int)
    ensures (front + LittleEndian(n, x))[|front|..] == LittleEndian(n, x)
  {}

  lemma ShortJump(code: seq<byte>, src: int, dst: int)
    requires |code| >= 2 && (code[0] == 0xeb || 0x70 <= code[0] < 0x80)
    ensures CopyJump(code, src, dst).Some? && Kept(BranchAt(code, src).value, CopyJump(code, src, dst).value, dst)
  {
    var disp := Signed(code[1..2]);
    var c := CopyJump(code, src, dst).value;
    if code[0] == 0xeb {
      var x := disp - (dst - src + 3);
      SignedRoundTrip(4, x);
      assert c.bytes[1..5] == LittleEndian(4, x);
    } else {
      var x := disp - (dst - src + 4);
      SignedRoundTrip(4, x);
      assert c.bytes[2..6] == LittleEndian(4, x);
    }
  }

  /** E8 and E9, and the second byte of 0F 80 to 0F 8F: five bytes with a displacement of four. */
  lemma NearField(o: Overrides, code: seq<byte>, src: int, dst: int)
    requires |code| >= 5
    ensures var c := CopyBytesOf(Bytes3Or5Target, o, code, src, dst); var disp := Signed(code[1..5]);
      && c == Some(Copied([code[0]] + LittleEndian(4, disp - (dst - src)), 5, At(src + 5 + disp), 0))
  {
    hide LittleEndian, Signed, Power, Fits;
    assert SizeOf(Bytes3Or5Target, o, code) == Some(5);
    assert RelField(Bytes3Or5Target, code, 5) == Some((1, 4));
    var bytes := code[..5];
    assert bytes[1..5] == code[1..5];
    var disp := Signed(code[1..5]);
    assert bytes[..1] == [code[0]] && bytes[5..] == [];
    assert Adjusted(bytes, (1, 4), src, dst) == [code[0]] + LittleEndian(4, disp - (dst - src));
  }

  lemma NearBranch(o: Overrides, code: seq<byte>, src: int, dst: int)
    requires |code| >= 5 && (code[0] == 0xe8 || code[0] == 0xe9)
    ensures var c := CopyBytesOf(Bytes3Or5Target, o, code, src, dst); c.Some? && Kept(BranchAt(code, src).value, c.value, dst)
  {
    hide LittleEndian, Signed, Power, Fits, CopyBytesOf;
    NearField(o, code, src, dst);
    var x := Signed(code[1..5]) - (dst - src);
    SignedRoundTrip(4, x);
    assert ([code[0]] + LittleEndian(4, x))[1..5] == LittleEndian(4, x);
  }

  lemma NearCondition(o: Overrides, code: seq<byte>, src: int, dst: int)
    requires |code| >= 6 && code[0] == 0x0f && 0x80 <= code[1] < 0x90
    ensures var c := Behind(code[..1], CopyBytesOf(Bytes3Or5Target, o, code[1..], src + 1, dst + 1));
      c.Some? && Kept(BranchAt(code, src).value, c.value, dst)
  {
    hide LittleEndian, Signed, Power, Fits, CopyBytesOf;
    NearField(o, code[1..], src + 1, dst + 1);
    assert code[1..][1..5] == code[2..6];
    var x := Signed(code[2..6]) - (dst - src);
    SignedRoundTrip(4, x);
    var bytes := code[..1] + ([code[1]] + LittleEndian(4, x));
    assert bytes[2..6] == LittleEndian(4, x);
    assert bytes[0] == 0x0f && bytes[1] == code[1] && |bytes| == 6;
  }

  lemma LoopField(o: Overrides, code: seq<byte>, src: int, dst: int)
    requires |code| >= 2
    ensures var c := CopyBytesOf(Bytes2CantJump, o, code, src, dst); var disp := Signed(code[1..2]);
      && c == Some(Copied([code[0]] + LittleEndian(1, disp - (dst - src)), 2, At(src + 2 + disp),
                          if Fits(1, disp - (dst - src)) then 0 else -3))
  {
    hide LittleEndian, Signed, Power, Fits;
    assert SizeOf(Bytes2CantJump, o, code) == Some(2);
    assert RelField(Bytes2CantJump, code, 2) == Some((1, 1));
    var bytes := code[..2];
    assert bytes[1..2] == code[1..2] && bytes[..1] == [code[0]] && bytes[2..] == [];
    assert Adjusted(bytes, (1, 1), src, dst) == [code[0]] + LittleEndian(1, Signed(code[1..2]) - (dst - src));
  }

  lemma LoopBranch(o: Overrides, code: seq<byte>, src: int, dst: int)
    requires |code| >= 2 && 0xe0 <= code[0] < 0xe4
    ensures var c := CopyBytesOf(Bytes2CantJump, o, code, src, dst); c.Some? && Kept(BranchAt(code, src).value, c.value, dst)
  {
    hide LittleEndian, Signed, Power, Fits, CopyBytesOf;
    LoopField(o, code, src, dst);
    var x := Signed(code[1..2]) - (dst - src);
    SignedRoundTrip(1, x);
    assert ([code[0]] + LittleEndian(1, x))[1..2] == LittleEndian(1, x);
  }

  /** A prefix in front changes nothing about the branch behind it. */
  lemma KeptBehind(p: byte, b: Branch, c: Copied, dst: int)
    requires IsPrefix(p) && Kept(b, c, dst + 1)
    ensures Kept(b.(size := 1 + b.size), c.(bytes := [p] + c.bytes, cbSrc := 1 + c.cbSrc), dst)
  {
    hide Fits;
    assert ([p] + c.bytes)[1..] == c.bytes;
  }

  /** What a prefix changes is remembered, and the copy goes on behind it. */
  lemma PrefixCopies(o: Overrides, code: seq<byte>, src: int, dst: int) returns (o1: Overrides)
    requires |code| >= 2 && IsPrefix(code[0])
    ensures Copy(CopyTable(code[0]), o, code, src, dst) == Behind(code[..1], Copy(CopyTable(code[1]), o1, code[1..], src + 1, dst + 1))
  {
    match CopyTable(code[0])
    case CopyBytesSegment => o1 := o.(segment := code[0]);
    case CopyBytesRax => o1 := o.(rax := o.rax || code[0] / 8 % 2 == 1);
    case Copy66 => o1 := o.(operand := true);
    case Copy67 => o1 := o.(address := true);
    case CopyF2 => o1 := o.(f2 := true);
    case CopyF3 => o1 := o.(f3 := true);
    case CopyBytesPrefix => o1 := o;
  }

  /** Every direct branch, behind any prefixes: the copy is the same branch, to the original target
    * exactly when the displacement of its new form reaches it. Short jumps become near ones; the LOOP
    * forms keep their one-byte displacement.
    */
  lemma {:induction false} BranchKept(o: Overrides, code: seq<byte>, src: int, dst: int)
    requires BranchAt(code, src).Some?
    ensures var c := Copy(CopyTable(code[0]), o, code, src, dst); c.Some? && Kept(BranchAt(code, src).value, c.value, dst)
    decreases |code|
  {
    hide Kept, LittleEndian, Signed, Fits, CopyBytesOf;
    if IsPrefix(code[0]) {
      var o1 := PrefixCopies(o, code, src, dst);
      BranchKept(o1, code[1..], src + 1, dst + 1);
      var c := Copy(CopyTable(code[1]), o1, code[1..], src + 1, dst + 1).value;
      KeptBehind(code[0], BranchAt(code[1..], src + 1).value, c, dst);
      assert code[..1] == [code[0]];
    } else {
      BranchOpcode(code, src);
      if code[0] == 0xeb || 0x70 <= code[0] < 0x80 {
        ShortJump(code, src, dst);
      } else if 0xe0 <= code[0] < 0xe4 {
        LoopBranch(o, code, src, dst);
      } else if code[0] == 0x0f {
        NearCondition(o, code, src, dst);
        EscapedCopy(o, code, src, dst);
      } else {
        NearBranch(o, code, src, dst);
      }
    }
  }

  /** The opcodes of direct branches and their entries. */
  lemma BranchOpcode(code: seq<byte>, src: int)
    requires BranchAt(code, src).Some? && !IsPrefix(code[0])
    ensures |code| >= 2
    ensures code[0] == 0xeb || 0x70 <= code[0] < 0x80 || 0xe0 <= code[0] < 0xe4 || (|code| >= 5 && (code[0] == 0xe8 || code[0] == 0xe9))
      || (|code| >= 6 && code[0] == 0x0f && 0x80 <= code[1] < 0x90)
  {}

  lemma EscapedCopy(o: Overrides, code: seq<byte>, src: int, dst: int)
    requires |code| >= 6 && code[0] == 0x0f && 0x80 <= code[1] < 0x90
    ensures Copy(CopyTable(code[0]), o, code, src, dst) == Behind(code[..1], CopyBytesOf(Bytes3Or5Target, o, code[1..], src + 1, dst + 1))
  {
    hide CopyBytesOf;
    assert CopyTable0F(code[1]) == Bytes3Or5Target;
    assert Copy(Bytes3Or5Target, o, code[1..], src + 1, dst + 1) == CopyBytesOf(Bytes3Or5Target, o, code[1..], src + 1, dst + 1);
  }

  /** CopyInstruction keeps every direct branch. */
  lemma InstructionKeepsBranch(code: seq<byte>, src: int, dst: int)
    requires BranchAt(code, src).Some?
    ensures CopyInstruction(code, src, dst).Some? && Kept(BranchAt(code, src).value, CopyInstruction(code, src, dst).value, dst)
  {
    BranchKept(NO_OVERRIDES, code, src, dst);
  }
}
