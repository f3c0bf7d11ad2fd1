/** The x64 copier takes instructions for as long as they are, and moves exactly their relative fields
  * (detours/src/disasm.cpp:342-920), but for a few encodings.
  */
module X64Sizes {
  import opened PayloadLayout
  import opened X64Copy
  import opened X64Simulation
  import opened X64Moved
  import opened X64Length

  /** The bytes of an instruction with its relative field, if it has one, moved over the distance. */
  ghost predicate CopiedAs(a: seq<byte>, d: Decoded, b: seq<byte>, dist: int) {
    d.short || match d.rel case None => b == a case Some(f) => FieldMoved(a, b, f.0, f.1, dist)
  }

  /** A copy reads the whole instruction and writes it so. */
  ghost predicate Right(code: seq<byte>, d: Decoded, c: Option<Copied>, dist: int) {
    d.size <= |code| && c.Some? && c.value.cbSrc == d.size && CopiedAs(code[..d.size], d, c.value.bytes, dist)
  }

  // ------------------------------------------------------------------ Counted bytes

  function FixedSize(e: CopyEntry, o: Overrides): nat
    requires e.CopyBytes?
  {
    if e.flag == ADDRESS then (if o.address then e.nFixedSize16 else e.nFixedSize)
    else if o.rax then e.nFixedSize + (if e.flag == RAX then 4 else 0)
    else if o.operand then e.nFixedSize16
    else e.nFixedSize
  }

  lemma AddressBytes(s: seq<byte>)
    requires AddressLength(s).Some?
    ensures s != [] && (HasSib(s[0]) ==> |s| >= 2)
    ensures AddressLength(s).value == 1 + ModRmBytes(s[0]) + if HasSib(s[0]) && s[1] % 8 == 5 then 4 else 0
    ensures IsRip(s[0]) <==> IsRipOperand(s[0])
    ensures IsRip(s[0]) ==> AddressLength(s).value == 5
  {}

  lemma ModdedSize(e: CopyEntry, o: Overrides, code: seq<byte>, imm: nat)
    requires e.CopyBytes? && e.nModOffset > 0 && FixedSize(e, o) == e.nModOffset + 1 + imm && Modded(code, e.nModOffset, imm).Some?
    ensures SizeOf(e, o, code) == Some(Modded(code, e.nModOffset, imm).value.size)
  {
    var s := code[e.nModOffset..];
    AddressBytes(s);
    assert s[0] == code[e.nModOffset] && (|s| >= 2 ==> s[1] == code[e.nModOffset + 1]);
    hide ModRmBytes, HasSib, AddressLength, IsRip;
  }

  /** An entry with a mod/rm byte copies an instruction with one. */
  lemma ModdedRight(e: CopyEntry, o: Overrides, code: seq<byte>, imm: nat, src: int, dst: int)
    requires e.CopyBytes? && e.nModOffset > 0 && e.nRelOffset == 0 && FixedSize(e, o) == e.nModOffset + 1 + imm
    requires Modded(code, e.nModOffset, imm).Some? && Modded(code, e.nModOffset, imm).value.size <= |code|
    ensures Right(code, Modded(code, e.nModOffset, imm).value, CopyBytesOf(e, o, code, src, dst), dst - src)
  {
    ModdedSize(e, o, code, imm);
    AddressBytes(code[e.nModOffset..]);
    hide SizeOf, AddressLength, ModRmBytes, HasSib, LittleEndian, Signed, Fits, IsRip, IsRipOperand;
  }

  lemma PlainRight(e: CopyEntry, o: Overrides, code: seq<byte>, src: int, dst: int)
    requires e.CopyBytes? && e.nModOffset == 0 && e.nRelOffset == 0 && FixedSize(e, o) <= |code|
    ensures Right(code, Plain(FixedSize(e, o)).value, CopyBytesOf(e, o, code, src, dst), dst - src)
  {}

  lemma RelativeRight(e: CopyEntry, o: Overrides, code: seq<byte>, src: int, dst: int)
    requires e.CopyBytes? && e.nModOffset == 0 && e.nRelOffset == 1 && 1 <= FixedSize(e, o) <= |code|
    ensures Right(code, Relative(FixedSize(e, o), 1, false).value, CopyBytesOf(e, o, code, src, dst), dst - src)
  {
    FixedIsSize(e, o, code);
    hide LittleEndian, Signed, Fits, SizeOf, FixedSize;
    var n := FixedSize(e, o);
    assert RelField(e, code, n) == Some((1, n - 1));
    assert FieldMoved(code[..n], CopyBytesOf(e, o, code, src, dst).value.bytes, 1, n - 1, dst - src);
  }

  lemma FixedIsSize(e: CopyEntry, o: Overrides, code: seq<byte>)
    requires e.CopyBytes? && e.nModOffset == 0
    ensures SizeOf(e, o, code) == Some(FixedSize(e, o))
  {}

  lemma JumpRight(code: seq<byte>, src: int, dst: int)
    requires |code| >= 2 && (code[0] == 0xeb || 0x70 <= code[0] < 0x80)
    ensures Right(code, Relative(2, 1, true).value, CopyJump(code, src, dst), dst - src)
  {}

  // ------------------------------------------------------------------------- Raising

  /** The same instruction behind `n` more bytes. */
  function Raised(d: Decoded, n: nat): Decoded {
    d.(size := n + d.size, rel := match d.rel case None => None case Some(f) => Some((n + f.0, f.1)))
  }

  lemma RaisedByOne(d: Decoded)
    ensures Shifted(Some(d)) == Some(Raised(d, 1))
  {}

  lemma {:induction false} ModdedRaised(s: seq<byte>, n: nat, at: nat, imm: nat)
    requires n <= |s|
    ensures match Modded(s[n..], at, imm) case None => Modded(s, n + at, imm).None? case Some(d) => Modded(s, n + at, imm) == Some(Raised(d, n))
  {
    hide AddressLength, IsRipOperand;
    if |s| > n + at { assert s[n..][at..] == s[n + at..] && s[n..][at] == s[n + at]; }
  }

  lemma RightBehind(code: seq<byte>, n: nat, d: Decoded, c: Option<Copied>, dist: int)
    requires n <= |code| && Right(code[n..], d, c, dist)
    ensures Right(code, Raised(d, n), Behind(code[..n], c), dist)
  {
    hide FieldMoved;
    var a := code[n..][..d.size];
    assert code[..n + d.size] == code[..n] + a;
    if !d.short && d.rel.Some? {
      FieldBehind(code[..n], a, c.value.bytes, d.rel.value.0, d.rel.value.1, dist);
    }
  }

  // ------------------------------------------------------------------------- Opcodes

  /** What the copier has seen is what the processor has seen. */
  predicate Agree(o: Overrides, e: Seen) { o.operand == e.operand && o.address == e.address && o.rax == e.rexW && o.f2 == e.f2 }

  lemma ModRmEntries(b: byte)
    requires HasModRm(b) && b != 0xf6 && b != 0xf7 && b != 0xff && b != 0x8f
    ensures CopyTable(b) == if HasModRmByte(b) then Bytes2Mod1 else if HasModRmImmZ(b) then Bytes2ModOperand else Bytes2Mod
  {}

  lemma ByteEntries(b: byte)
    requires HasByte(b)
    ensures !HasModRm(b) && (CopyTable(b) == Bytes2 || CopyTable(b) == Bytes2Dynamic)
  {}

  lemma ImmZEntries(b: byte)
    requires HasImmZ(b)
    ensures !HasModRm(b) && !HasByte(b) && CopyTable(b) == Bytes3Or5
  {}

  lemma AloneEntries(b: byte)
    requires IsAlone(b)
    ensures !HasModRm(b) && !HasByte(b) && !HasImmZ(b) && (CopyTable(b) == Bytes1 || CopyTable(b) == Bytes1Dynamic)
  {}

  lemma OtherEntries()
    ensures forall b: byte | 0xb8 <= b < 0xc0 :: CopyTable(b) == Bytes3Or5Rax
    ensures forall b: byte | 0xa0 <= b < 0xa4 :: CopyTable(b) == Bytes1Address
    ensures CopyTable(0xc2) == Bytes3 && CopyTable(0xca) == Bytes3Dynamic && CopyTable(0xc8) == Bytes4
    ensures forall b: byte | 0x70 <= b < 0x80 || b == 0xeb :: CopyTable(b) == CopyBytesJump
    ensures forall b: byte | 0xe0 <= b < 0xe4 :: CopyTable(b) == Bytes2CantJump
    ensures CopyTable(0xe8) == Bytes3Or5Target && CopyTable(0xe9) == Bytes3Or5Target
  {}

  lemma CopyOfBytes(e: CopyEntry, o: Overrides, code: seq<byte>, src: int, dst: int)
    requires code != [] && e.CopyBytes? && (e.nModOffset > 0 ==> e.nRelOffset == 0)
    ensures Copy(e, o, code, src, dst) == CopyBytesOf(e, o, code, src, dst)
  {
    hide CopyBytesOf;
  }

  lemma IndirectRight(o: Overrides, code: seq<byte>, d: Decoded, src: int, dst: int)
    requires |code| >= 2 && Right(code, d, CopyBytesOf(Bytes2Mod, o, code, src, dst), dst - src)
    ensures Right(code, d, CopyIndirect(o, code, src, dst), dst - src)
  {
    hide CopyBytesOf, CopiedAs, Signed;
  }

  lemma GroupRight(o: Overrides, e: Seen, code: seq<byte>, src: int, dst: int)
    requires code != [] && Agree(o, e) && (code[0] == 0xf6 || code[0] == 0xf7 || code[0] == 0xff || (code[0] == 0x8f && !IsXop(code)))
    requires OneByte(code, e).Some? && OneByte(code, e).value.size <= |code|
    ensures Right(code, OneByte(code, e).value, Copy(CopyTable(code[0]), o, code, src, dst), dst - src)
  {
    hide CopyBytesOf, Right, Modded, Signed, CopyTable;
    GroupEntries();
    ModdedIsLong(code, OneByte(code, e));
    if code[0] == 0xf6 {
      var entry := if RegField(code[1]) == 0 then Bytes2Mod1 else Bytes2Mod;
      ModdedRight(entry, o, code, if RegField(code[1]) == 0 then 1 else 0, src, dst);
    } else if code[0] == 0xf7 {
      var entry := if RegField(code[1]) == 0 then Bytes2ModOperand else Bytes2Mod;
      ModdedRight(entry, o, code, if RegField(code[1]) == 0 then ImmZ(e) else 0, src, dst);
    } else {
      ModdedRight(Bytes2Mod, o, code, 0, src, dst);
      if code[0] == 0xff { IndirectRight(o, code, OneByte(code, e).value, src, dst); }
    }
  }

  lemma GroupEntries()
    ensures CopyTable(0xf6) == CopyF6 && CopyTable(0xf7) == CopyF7 && CopyTable(0xff) == CopyFF && CopyTable(0x8f) == CopyXop
  {}

  lemma ModdedIsLong(code: seq<byte>, d: Option<Decoded>)
    ensures forall imm: nat | Modded(code, 1, imm).Some? :: |code| >= 2
  {}

  /** Every opcode of one byte. */
  lemma OneByteRight(o: Overrides, e: Seen, code: seq<byte>, src: int, dst: int)
    requires code != [] && !IsPrefix(code[0]) && Agree(o, e) && !IsXop(code)
    requires OneByte(code, e).Some? && OneByte(code, e).value.size <= |code|
    ensures Right(code, OneByte(code, e).value, Copy(CopyTable(code[0]), o, code, src, dst), dst - src)
  {
    hide CopyBytesOf, Copy, Right, Modded, CopyTable, HasModRm, HasModRmByte, HasModRmImmZ, HasByte, HasImmZ, IsAlone, IsPrefix, IsXop, CopyJump;
    var b := code[0];
    if b == 0xf6 || b == 0xf7 || b == 0xff || b == 0x8f {
      GroupRight(o, e, code, src, dst);
    } else if HasModRm(b) {
      ModRmEntries(b);
      CopyOfBytes(CopyTable(b), o, code, src, dst);
      ModdedRight(CopyTable(b), o, code, if HasModRmByte(b) then 1 else if HasModRmImmZ(b) then ImmZ(e) else 0, src, dst);
    } else if HasByte(b) {
      ByteEntries(b);
      CopyOfBytes(CopyTable(b), o, code, src, dst);
      PlainRight(CopyTable(b), o, code, src, dst);
    } else if HasImmZ(b) {
      ImmZEntries(b);
      CopyOfBytes(CopyTable(b), o, code, src, dst);
      PlainRight(CopyTable(b), o, code, src, dst);
    } else {
      OtherRight(o, e, code, src, dst);
    }
  }

  lemma OtherRight(o: Overrides, e: Seen, code: seq<byte>, src: int, dst: int)
    requires code != [] && !IsPrefix(code[0]) && Agree(o, e) && !HasModRm(code[0]) && !HasByte(code[0]) && !HasImmZ(code[0])
    requires code[0] != 0xf6 && code[0] != 0xf7
    requires OneByte(code, e).Some? && OneByte(code, e).value.size <= |code|
    ensures Right(code, OneByte(code, e).value, Copy(CopyTable(code[0]), o, code, src, dst), dst - src)
  {
    hide CopyBytesOf, Right, CopyTable, HasModRm, HasByte, HasImmZ, IsAlone, CopyJump, Prefixed, Vex, CopyIndirect;
    var b := code[0];
    OtherEntries();
    if IsAlone(b) { AloneEntries(b); }
    if 0x70 <= b < 0x80 || b == 0xeb {
      JumpRight(code, src, dst);
    } else if 0xe0 <= b < 0xe4 || b == 0xe8 || b == 0xe9 {
      RelativeRight(CopyTable(b), o, code, src, dst);
    } else {
      PlainRight(CopyTable(b), o, code, src, dst);
    }
  }

  // ----------------------------------------------------------------- Behind the escape

  lemma EscapeEntries(b: byte)
    ensures CopyTable(0x0f) == Copy0F && CopyTable0F(0x38) == Bytes3Mod && CopyTable0F(0x3a) == Bytes3Mod1 && CopyTable0F(0x78) == Copy0F78
    ensures 0x20 <= b < 0x24 ==> CopyTable0F(b) == Bytes2Mod
    ensures 0x80 <= b < 0x90 ==> CopyTable0F(b) == Bytes3Or5Target
    ensures HasModRmByte0F(b) ==> CopyTable0F(b) == Bytes2Mod1
    ensures IsAlone0F(b) ==> CopyTable0F(b) == Bytes1
    ensures HasModRm0F(b) && b != 0xb9 && b != 0xff ==> CopyTable0F(b) == Bytes2Mod
    ensures CopyTable0F(0xb9) == Invalid && CopyTable0F(0xff) == Invalid
  {}

  /** UD0 and UD1 are taken for invalid opcodes, and a move to or from a control register for one with a
    * memory operand, if its mod field says so.
    */
  predicate Mistaken0F(s: seq<byte>) {
    |s| >= 2 && s[0] == 0x0f
    && (s[1] == 0xb9 || s[1] == 0xff || (0x20 <= s[1] < 0x24 && (|s| < 3 || AddressLength(s[2..]) != Some(1))))
  }

  lemma EscapeModded(entry: CopyEntry, o: Overrides, code: seq<byte>, imm: nat, src: int, dst: int)
    requires |code| >= 2 && code[0] == 0x0f && CopyTable0F(code[1]) == entry
    requires entry.CopyBytes? && entry.nModOffset > 0 && entry.nRelOffset == 0 && FixedSize(entry, o) == entry.nModOffset + 1 + imm
    requires Modded(code, entry.nModOffset + 1, imm).Some? && Modded(code, entry.nModOffset + 1, imm).value.size <= |code|
    ensures Right(code, Modded(code, entry.nModOffset + 1, imm).value, Copy(CopyTable(code[0]), o, code, src, dst), dst - src)
  {
    hide CopyTable, CopyTable0F, Modded, Right, CopyBytesOf, HasModRm0F, FixedSize;
    EscapeEntries(0);
    var rest := code[1..];
    ModdedRaised(code, 1, entry.nModOffset, imm);
    CopyOfBytes(entry, o, rest, src + 1, dst + 1);
    ModdedRight(entry, o, rest, imm, src + 1, dst + 1);
    RightBehind(code, 1, Modded(rest, entry.nModOffset, imm).value, CopyBytesOf(entry, o, rest, src + 1, dst + 1), dst - src);
  }

  lemma EscapePlain(entry: CopyEntry, o: Overrides, code: seq<byte>, src: int, dst: int)
    requires |code| >= 2 && code[0] == 0x0f && CopyTable0F(code[1]) == entry
    requires entry.CopyBytes? && entry.nModOffset == 0 && entry.nRelOffset <= 1 <= FixedSize(entry, o) && 1 + FixedSize(entry, o) <= |code|
    ensures var d := if entry.nRelOffset == 0 then Plain(1 + FixedSize(entry, o)) else Relative(1 + FixedSize(entry, o), 2, false);
      Right(code, d.value, Copy(CopyTable(code[0]), o, code, src, dst), dst - src)
  {
    hide CopyTable, CopyTable0F, Right, CopyBytesOf, FixedSize;
    EscapeEntries(0);
    var rest := code[1..];
    CopyOfBytes(entry, o, rest, src + 1, dst + 1);
    if entry.nRelOffset == 0 {
      PlainRight(entry, o, rest, src + 1, dst + 1);
      RightBehind(code, 1, Plain(FixedSize(entry, o)).value, CopyBytesOf(entry, o, rest, src + 1, dst + 1), dst - src);
    } else {
      RelativeRight(entry, o, rest, src + 1, dst + 1);
      RightBehind(code, 1, Relative(FixedSize(entry, o), 1, false).value, CopyBytesOf(entry, o, rest, src + 1, dst + 1), dst - src);
    }
  }

  lemma EscapeSeventyEight(o: Overrides, code: seq<byte>, src: int, dst: int)
    requires |code| >= 2 && code[0] == 0x0f && code[1] == 0x78
    ensures Copy(CopyTable(code[0]), o, code, src, dst)
         == Behind(code[..1], CopyBytesOf(if o.f2 || o.operand then Bytes4 else Bytes2Mod, o, code[1..], src + 1, dst + 1))
  {
    hide CopyTable, CopyTable0F, CopyBytesOf;
    EscapeEntries(0);
  }

  /** Every opcode behind 0F that is not mistaken. */
  lemma TwoByteRight(o: Overrides, e: Seen, code: seq<byte>, src: int, dst: int)
    requires code != [] && code[0] == 0x0f && Agree(o, e) && !Mistaken0F(code)
    requires TwoByte(code, e).Some? && TwoByte(code, e).value.size <= |code|
    ensures Right(code, TwoByte(code, e).value, Copy(CopyTable(code[0]), o, code, src, dst), dst - src)
  {
    hide CopyTable, CopyTable0F, Copy, Modded, Right, CopyBytesOf, HasModRm0F, HasModRmByte0F, IsAlone0F;
    var b := code[1];
    EscapeEntries(b);
    if b == 0x38 {
      EscapeModded(Bytes3Mod, o, code, 0, src, dst);
    } else if b == 0x3a {
      EscapeModded(Bytes3Mod1, o, code, 1, src, dst);
    } else if 0x20 <= b < 0x24 {
      RegisterOnly(code);
      EscapeModded(Bytes2Mod, o, code, 0, src, dst);
    } else if b == 0x78 {
      EscapeSeventyEight(o, code, src, dst);
      var rest := code[1..];
      if e.operand || e.f2 {
        PlainRight(Bytes4, o, rest, src + 1, dst + 1);
        RightBehind(code, 1, Plain(4).value, CopyBytesOf(Bytes4, o, rest, src + 1, dst + 1), dst - src);
      } else {
        ModdedRaised(code, 1, 1, 0);
        ModdedRight(Bytes2Mod, o, rest, 0, src + 1, dst + 1);
        RightBehind(code, 1, Modded(rest, 1, 0).value, CopyBytesOf(Bytes2Mod, o, rest, src + 1, dst + 1), dst - src);
      }
    } else if HasModRm0F(b) {
      EscapeModded(Bytes2Mod, o, code, 0, src, dst);
    } else if HasModRmByte0F(b) {
      EscapeModded(Bytes2Mod1, o, code, 1, src, dst);
    } else if 0x80 <= b < 0x90 {
      EscapePlain(Bytes3Or5Target, o, code, src, dst);
    } else {
      EscapePlain(Bytes1, o, code, src, dst);
    }
  }

  lemma RegisterOnly(code: seq<byte>)
    requires |code| >= 3 && AddressLength(code[2..]) == Some(1)
    ensures Modded(code, 2, 0) == Plain(3)
  {
    assert code[2..][0] == code[2];
  }

  // ------------------------------------------------------------- VEX, EVEX and XOP

  /** EVEX instructions whose opcode is taken for one without EVEX, or for none. */
  predicate MistakenEvex(s: seq<byte>) {
    |s| >= 5 && s[0] == 0x62 && s[1] % 8 == 1
    && (s[4] == 0x7a || s[4] == 0x7b || (s[4] == 0x78 && s[2] % 2 == 1 && AddressLength(s[5..]) != Some(3)))
  }

  lemma VexEntries(b: byte)
    ensures HasVexModRm(b) || b == 0x79 ==> CopyTable0F(b) == Bytes2Mod
    ensures HasVexModRmByte(b) ==> CopyTable0F(b) == Bytes2Mod1
    ensures CopyTable0F(0x77) == Bytes1 && CopyTable0F(0x78) == Copy0F78 && CopyTable0F(0x7a) == Invalid && CopyTable0F(0x7b) == Invalid
  {}

  function Implied(o: Overrides, p: nat): Overrides {
    if p == 1 then o.(operand := true) else if p == 2 then o.(f3 := true) else if p == 3 then o.(f2 := true) else o
  }

  /** Map 1 goes on in the table for 0F. */
  lemma VexFirst(n: nat, p: nat, o: Overrides, code: seq<byte>, src: int, dst: int)
    requires 0 < n < |code|
    ensures Vex(1, n, p, o, code, src, dst) == Behind(code[..n], Copy(CopyTable0F(code[n]), Implied(o, p), code[n..], src + n, dst + n))
  {
    hide CopyTable0F, Copy;
    assert code[n..][0] == code[n];
  }

  lemma VexOthers(m: nat, n: nat, p: nat, o: Overrides, code: seq<byte>, src: int, dst: int)
    requires 0 < n < |code| && (m == 2 || m == 3 || m == 5 || m == 6)
    ensures Vex(m, n, p, o, code, src, dst)
         == Behind(code[..n], CopyBytesOf(if m == 3 then Bytes2Mod1 else Bytes2Mod, Implied(o, p), code[n..], src + n, dst + n))
  {
    hide CopyBytesOf;
  }

  lemma VexModded(entry: CopyEntry, o: Overrides, code: seq<byte>, n: nat, imm: nat, src: int, dst: int)
    requires n <= |code| && ((entry == Bytes2Mod && imm == 0) || (entry == Bytes2Mod1 && imm == 1))
    requires Modded(code, n + 1, imm).Some? && Modded(code, n + 1, imm).value.size <= |code|
    ensures Right(code, Modded(code, n + 1, imm).value, Behind(code[..n], CopyBytesOf(entry, o, code[n..], src + n, dst + n)), dst - src)
  {
    hide Modded, Right, CopyBytesOf;
    ModdedRaised(code, n, 1, imm);
    ModdedRight(entry, o, code[n..], imm, src + n, dst + n);
    RightBehind(code, n, Modded(code[n..], 1, imm).value, CopyBytesOf(entry, o, code[n..], src + n, dst + n), dst - src);
  }

  /** EVEX 78 taken for EXTRQ has the right length if its operand has a SIB byte and a short displacement. */
  lemma FourBytesRight(o: Overrides, code: seq<byte>, n: nat, src: int, dst: int)
    requires n + 1 <= |code| && AddressLength(code[n + 1..]) == Some(3) && n + 4 <= |code|
    ensures Right(code, Modded(code, n + 1, 0).value, Behind(code[..n], CopyBytesOf(Bytes4, o, code[n..], src + n, dst + n)), dst - src)
  {
    assert code[n + 1..][0] == code[n + 1];
    assert Modded(code, n + 1, 0) == Some(Raised(Plain(4).value, n));
    PlainRight(Bytes4, o, code[n..], src + n, dst + n);
    hide Right, CopyBytesOf, Modded;
    RightBehind(code, n, Plain(4).value, CopyBytesOf(Bytes4, o, code[n..], src + n, dst + n), dst - src);
  }

  lemma VexRight(m: nat, n: nat, p: nat, evex: bool, o: Overrides, code: seq<byte>, src: int, dst: int)
    requires 0 < n < |code| && (!o.operand && !o.f2) && p < 4 && VexOpcode(code, n, m, evex).Some? && VexOpcode(code, n, m, evex).value.size <= |code|
    requires m == 1 && evex ==> code[n] != 0x7a && code[n] != 0x7b && (code[n] == 0x78 && p % 2 == 1 ==> AddressLength(code[n + 1..]) == Some(3))
    ensures Right(code, VexOpcode(code, n, m, evex).value, Vex(m, n, p, o, code, src, dst), dst - src)
  {
    hide Vex, Copy, CopyTable0F, Modded, Right, CopyBytesOf, HasVexModRm, HasVexModRmByte, AddressLength;
    var o1, rest, b := Implied(o, p), code[n..], code[n];
    if m == 1 {
      VexEntries(b);
      VexFirst(n, p, o, code, src, dst);
      if b == 0x78 && evex && !HasVexModRm(b) {
        SeventyEight(o1, rest, src + n, dst + n);
        if p % 2 == 1 {
          ThreeMore(code, n);
          FourBytesRight(o1, code, n, src, dst);
        } else {
          VexModded(Bytes2Mod, o1, code, n, 0, src, dst);
        }
      } else if HasVexModRm(b) || (evex && 0x78 <= b < 0x7c) {
        CopyOfBytes(Bytes2Mod, o1, rest, src + n, dst + n);
        VexModded(Bytes2Mod, o1, code, n, 0, src, dst);
      } else if HasVexModRmByte(b) {
        CopyOfBytes(Bytes2Mod1, o1, rest, src + n, dst + n);
        VexModded(Bytes2Mod1, o1, code, n, 1, src, dst);
      } else {
        CopyOfBytes(Bytes1, o1, rest, src + n, dst + n);
        PlainRight(Bytes1, o1, rest, src + n, dst + n);
        RightBehind(code, n, Plain(1).value, CopyBytesOf(Bytes1, o1, rest, src + n, dst + n), dst - src);
      }
    } else {
      VexOthers(m, n, p, o, code, src, dst);
      VexModded(if m == 3 then Bytes2Mod1 else Bytes2Mod, o1, code, n, if m == 3 then 1 else 0, src, dst);
    }
  }

  lemma SeventyEight(o: Overrides, code: seq<byte>, src: int, dst: int)
    requires code != [] && code[0] == 0x78
    ensures Copy(CopyTable0F(code[0]), o, code, src, dst) == CopyBytesOf(if o.f2 || o.operand then Bytes4 else Bytes2Mod, o, code, src, dst)
  {
    hide CopyTable0F, CopyBytesOf;
    VexEntries(0);
  }

  lemma ThreeMore(code: seq<byte>, n: nat)
    requires Modded(code, n + 1, 0).Some? && Modded(code, n + 1, 0).value.size <= |code| && AddressLength(code[n + 1..]) == Some(3)
    ensures n + 4 <= |code|
  {}

  lemma PrefixTable()
    ensures CopyTable(0xc5) == CopyVex2 && CopyTable(0xc4) == CopyVex3 && CopyTable(0x62) == CopyEvex && CopyTable(0x8f) == CopyXop
  {}

  lemma XopRight(o: Overrides, code: seq<byte>, imm: nat, src: int, dst: int)
    requires |code| >= 2 && code[0] == 0x8f && !o.operand && Modded(code, 4, imm).Some? && Modded(code, 4, imm).value.size <= |code|
    requires (code[1] % 0x20 == 8 && imm == 1) || (code[1] % 0x20 == 9 && imm == 0) || (code[1] % 0x20 == 10 && imm == 4)
    ensures Right(code, Modded(code, 4, imm).value, Copy(CopyTable(code[0]), o, code, src, dst), dst - src)
  {
    hide CopyTable, Modded, Right, CopyBytesOf;
    PrefixTable();
    ModdedRight(if imm == 1 then BytesXop1 else if imm == 0 then BytesXop else BytesXop4, o, code, imm, src, dst);
  }

  lemma VexIsLong(code: seq<byte>, n: nat, m: nat, evex: bool)
    requires VexOpcode(code, n, m, evex).Some?
    ensures n < |code|
  {}

  /** Every instruction behind VEX, EVEX or XOP that is not mistaken. */
  lemma ExtendedRight(o: Overrides, e: Seen, code: seq<byte>, src: int, dst: int)
    requires code != [] && (code[0] == 0xc4 || code[0] == 0xc5 || code[0] == 0x62 || IsXop(code))
    requires !o.operand && !o.f2 && !MistakenEvex(code)
    requires Extended(code, e).Some? && Extended(code, e).value.size <= |code|
    ensures Right(code, Extended(code, e).value, Copy(CopyTable(code[0]), o, code, src, dst), dst - src)
  {
    hide CopyTable, Modded, Right, CopyBytesOf, VexOpcode, Vex, CopyTable0F, AddressLength;
    PrefixTable();
    if code[0] == 0xc5 {
      VexRight(1, 2, code[1] % 4, false, o, code, src, dst);
    } else if code[0] == 0xc4 {
      VexIsLong(code, 3, code[1] % 0x20, false);
      VexRight(code[1] % 0x20, 3, code[2] % 4, false, o.(rax := o.rax || code[2] >= 0x80), code, src, dst);
    } else if code[0] == 0x62 {
      VexIsLong(code, 4, code[1] % 8, true);
      EvexMap(code[1]);
      VexRight(code[1] % 8, 4, code[2] % 4, true, o.(rax := o.rax || code[2] >= 0x80), code, src, dst);
    } else {
      XopRight(o, code, if code[1] % 0x20 == 8 then 1 else if code[1] % 0x20 == 9 then 0 else 4, src, dst);
    }
  }

  lemma EvexMap(b: byte)
    ensures b % 4 + b / 4 % 2 * 4 == b % 8
  {}

  // -------------------------------------------------------------------------- Mistakes

  predicate MistakenOpcode(s: seq<byte>) { Mistaken0F(s) || MistakenEvex(s) }

  /** A copy that does not read the instruction. */
  ghost predicate WrongSize(d: Decoded, c: Option<Copied>) { c.None? || c.value.cbSrc != d.size }

  lemma InvalidIsOne(o: Overrides, code: seq<byte>, src: int, dst: int)
    requires code != []
    ensures Copy(Invalid, o, code, src, dst) == Some(Copied([], 1, NoTarget, 0))
  {}

  lemma ModdedIsMore(s: seq<byte>, at: nat, imm: nat)
    requires Modded(s, at, imm).Some?
    ensures Modded(s, at, imm).value.size > at
  {}

  lemma Wrong0F(o: Overrides, e: Seen, code: seq<byte>, src: int, dst: int)
    requires Mistaken0F(code) && TwoByte(code, e).Some? && TwoByte(code, e).value.size <= |code|
    ensures WrongSize(TwoByte(code, e).value, Copy(CopyTable(code[0]), o, code, src, dst))
  {
    hide CopyTable, CopyTable0F, CopyBytesOf, Modded;
    EscapeEntries(code[1]);
    var rest := code[1..];
    if code[1] == 0xb9 || code[1] == 0xff {
      InvalidIsOne(o, rest, src + 1, dst + 1);
      ModdedIsMore(code, 2, 0);
    } else {
      CopyOfBytes(Bytes2Mod, o, rest, src + 1, dst + 1);
      MemoryIsMore(o, rest, src + 1, dst + 1);
      assert rest[1..] == code[2..];
    }
  }

  lemma MemoryIsMore(o: Overrides, code: seq<byte>, src: int, dst: int)
    requires |code| >= 2 && AddressLength(code[1..]) != Some(1)
    ensures var c := CopyBytesOf(Bytes2Mod, o, code, src, dst); c.Some? ==> c.value.cbSrc > 2
  {
    hide LittleEndian, Signed, Fits;
    assert code[1..][0] == code[1] && (|code| > 2 ==> code[1..][1] == code[2]);
  }

  lemma WrongEvex(o: Overrides, e: Seen, code: seq<byte>, src: int, dst: int)
    requires MistakenEvex(code) && Extended(code, e).Some? && Extended(code, e).value.size <= |code|
    ensures WrongSize(Extended(code, e).value, Copy(CopyTable(code[0]), o, code, src, dst))
  {
    hide CopyTable, CopyTable0F, CopyBytesOf, Modded, Vex, Signed;
    PrefixTable();
    VexEntries(0);
    EvexMap(code[1]);
    var o1 := o.(rax := o.rax || code[2] >= 0x80);
    VexFirst(4, code[2] % 4, o1, code, src, dst);
    ModdedIsMore(code, 5, 0);
    if code[4] == 0x78 {
      OddIsOneOrThree(code[2]);
      SeventyEight(Implied(o1, code[2] % 4), code[4..], src + 4, dst + 4);
      FourIsFour(Implied(o1, code[2] % 4), code[4..], src + 4, dst + 4);
      ModdedLength(code, 5);
    } else {
      InvalidIsOne(Implied(o1, code[2] % 4), code[4..], src + 4, dst + 4);
    }
  }

  lemma OddIsOneOrThree(b: byte)
    requires b % 2 == 1
    ensures b % 4 == 1 || b % 4 == 3
  {}

  lemma FourIsFour(o: Overrides, code: seq<byte>, src: int, dst: int)
    ensures var c := CopyBytesOf(Bytes4, o, code, src, dst); c.Some? ==> c.value.cbSrc == 4
  {}

  lemma ModdedLength(s: seq<byte>, at: nat)
    requires Modded(s, at, 0).Some?
    ensures AddressLength(s[at..]).Some? && Modded(s, at, 0).value.size == at + AddressLength(s[at..]).value
  {}

  // -------------------------------------------------------------------------- Prefixes

  /** Behind its prefixes the instruction is mistaken. */
  predicate Mistaken(s: seq<byte>) { s != [] && if IsPrefix(s[0]) then Mistaken(s[1..]) else MistakenOpcode(s) }

  lemma MistakenApart(s: seq<byte>)
    requires s != []
    ensures MistakenOpcode(s) ==> (Mistaken0F(s) && s[0] == 0x0f) || (MistakenEvex(s) && s[0] == 0x62)
  {}

  lemma ExtendedAlone(s: seq<byte>, e: Seen)
    requires s != [] && Extended(s, e).Some?
    ensures !e.any
  {}

  /** From the opcode on, the copy is right exactly if the instruction is not mistaken. */
  lemma OpcodeSize(o: Overrides, e: Seen, code: seq<byte>, src: int, dst: int)
    requires code != [] && !IsPrefix(code[0]) && Agree(o, e) && (!e.any ==> !e.operand && !e.f2)
    requires Opcode(code, e).Some? && Opcode(code, e).value.size <= |code|
    ensures var d, c := Opcode(code, e).value, Copy(CopyTable(code[0]), o, code, src, dst);
      if MistakenOpcode(code) then WrongSize(d, c) else Right(code, d, c, dst - src)
  {
    hide CopyTable, Copy, Right, WrongSize, TwoByte, OneByte, Extended, Mistaken0F, MistakenEvex, IsPrefix, IsXop;
    MistakenApart(code);
    XopStart(code);
    if code[0] == 0x0f {
      if Mistaken0F(code) { Wrong0F(o, e, code, src, dst); } else { TwoByteRight(o, e, code, src, dst); }
    } else if code[0] == 0xc4 || code[0] == 0xc5 || code[0] == 0x62 || IsXop(code) {
      ExtendedAlone(code, e);
      if MistakenEvex(code) { WrongEvex(o, e, code, src, dst); } else { ExtendedRight(o, e, code, src, dst); }
    } else {
      OneByteRight(o, e, code, src, dst);
    }
  }

  lemma XopStart(s: seq<byte>)
    ensures IsXop(s) ==> s[0] == 0x8f
  {}

  /** What the copier notes of a prefix. */
  function Noted(o: Overrides, b: byte): Overrides {
    if IsRex(b) then o.(rax := o.rax || b / 8 % 2 == 1)
    else if b == 0x66 then o.(operand := true)
    else if b == 0x67 then o.(address := true)
    else if b == 0xf2 then o.(f2 := true)
    else if b == 0xf3 then o.(f3 := true)
    else if b == 0xf0 then o
    else o.(segment := b)
  }

  lemma PrefixEntry(b: byte)
    requires IsPrefix(b)
    ensures CopyTable(b) == if IsRex(b) then CopyBytesRax else if b == 0x66 then Copy66 else if b == 0x67 then Copy67
      else if b == 0xf2 then CopyF2 else if b == 0xf3 then CopyF3 else if b == 0xf0 then CopyBytesPrefix else CopyBytesSegment
  {}

  lemma PrefixNoted(o: Overrides, code: seq<byte>, src: int, dst: int)
    requires |code| >= 2 && IsPrefix(code[0])
    ensures Copy(CopyTable(code[0]), o, code, src, dst)
         == Behind(code[..1], Copy(CopyTable(code[1]), Noted(o, code[0]), code[1..], src + 1, dst + 1))
  {
    hide CopyTable, IsPrefix;
    PrefixEntry(code[0]);
  }

  lemma NotedIsSeen(o: Overrides, e: Seen, b: byte)
    requires IsPrefix(b) && Agree(o, e) && !e.rexW && (!e.any ==> !e.operand && !e.f2)
    ensures Agree(Noted(o, b), After(e, b)) && (!After(e, b).any ==> !After(e, b).operand && !After(e, b).f2)
    ensures After(e, b).rexW ==> IsRex(b)
  {}

  lemma WrongBehind(code: seq<byte>, d: Decoded, c: Option<Copied>)
    requires code != [] && WrongSize(d, c)
    ensures WrongSize(Raised(d, 1), Behind(code[..1], c))
  {}

  lemma {:induction false} InstructionSize(o: Overrides, e: Seen, code: seq<byte>, src: int, dst: int)
    requires code != [] && Agree(o, e) && (!e.any ==> !e.operand && !e.f2) && RexLast(code) && (IsPrefix(code[0]) ==> !e.rexW)
    requires Instruction(code, e).Some? && Instruction(code, e).value.size <= |code|
    ensures var d, c := Instruction(code, e).value, Copy(CopyTable(code[0]), o, code, src, dst);
      if Mistaken(code) then WrongSize(d, c) else Right(code, d, c, dst - src)
    decreases |code|
  {
    hide CopyTable, Copy, Right, WrongSize, Opcode, MistakenOpcode, IsPrefix, Agree, After, Noted, IsRex, CopiedAs;
    if IsPrefix(code[0]) {
      var rest, e1, o1 := code[1..], After(e, code[0]), Noted(o, code[0]);
      NotedIsSeen(o, e, code[0]);
      PrefixNoted(o, code, src, dst);
      var d := Instruction(rest, e1).value;
      RaisedByOne(d);
      InstructionSize(o1, e1, rest, src + 1, dst + 1);
      var c := Copy(CopyTable(rest[0]), o1, rest, src + 1, dst + 1);
      if Mistaken(code) {
        WrongBehind(code, d, c);
      } else {
        RightBehind(code, 1, d, c, dst - src);
      }
    } else {
      OpcodeSize(o, e, code, src, dst);
    }
  }

  // ------------------------------------------------------------------- Whole instructions

  /** Every instruction: the copier takes it for as long as it is if and only if it is not mistaken. */
  lemma SizeIsLength(code: seq<byte>, src: int, dst: int)
    requires RexLast(code) && Instruction(code, NOTHING).Some? && Instruction(code, NOTHING).value.size <= |code|
    ensures var d, c := Instruction(code, NOTHING).value, CopyInstruction(code, src, dst);
      (c.Some? && c.value.cbSrc == d.size) <==> !Mistaken(code)
  {
    hide CopyTable, Copy, Mistaken, Instruction, RexLast, CopiedAs, IsPrefix;
    InstructionSize(NO_OVERRIDES, NOTHING, code, src, dst);
  }

  /** Its copy is the same bytes but for its relative field, which names the same address exactly if the new
    * offset fits; short jumps are widened.
    */
  lemma OperandKept(code: seq<byte>, src: int, dst: int)
    requires RexLast(code) && Instruction(code, NOTHING).Some? && Instruction(code, NOTHING).value.size <= |code|
    requires !Mistaken(code) && !Instruction(code, NOTHING).value.short
    ensures var d, c := Instruction(code, NOTHING).value, CopyInstruction(code, src, dst);
      c.Some? && c.value.cbSrc == d.size == |c.value.bytes|
      && match d.rel
         case None => c.value.bytes == code[..d.size]
         case Some(f) =>
           && f.0 + f.1 <= d.size && c.value.bytes[..f.0] == code[..f.0] && c.value.bytes[f.0 + f.1..] == code[f.0 + f.1..d.size]
           && (dst + d.size + Signed(c.value.bytes[f.0..f.0 + f.1]) == src + d.size + Signed(code[f.0..f.0 + f.1])
               <==> Fits(f.1, Signed(code[f.0..f.0 + f.1]) - (dst - src)))
  {
    hide CopyTable, Copy, Mistaken, Instruction, RexLast, IsPrefix, FieldMoved, Signed, Fits;
    InstructionSize(NO_OVERRIDES, NOTHING, code, src, dst);
    var d, b := Instruction(code, NOTHING).value, CopyInstruction(code, src, dst).value.bytes;
    if d.rel.Some? {
      var f := d.rel.value;
      MovedLength(code[..d.size], b, f.0, f.1, dst - src);
      AddressKept(code[..d.size], b, f.0, f.1, src, dst);
      assert code[..d.size][..f.0] == code[..f.0] && code[..d.size][f.0 + f.1..] == code[f.0 + f.1..d.size];
      assert code[..d.size][f.0..f.0 + f.1] == code[f.0..f.0 + f.1];
    }
  }

  lemma MovedLength(a: seq<byte>, b: seq<byte>, o: nat, n: nat, d: int)
    requires FieldMoved(a, b, o, n, d)
    ensures |a| == |b| && o + n <= |a|
  {}

  /** REX.W behind which another prefix stands is ignored by the processor, but not by the copier: mov ax,
    * 1234h is taken for an instruction with an immediate of eight bytes.
    */
  lemma StaleRexIsMistaken(rest: seq<byte>, src: int, dst: int)
    requires |rest| >= 6
    ensures var code := [0x48, 0x66, 0xb8, 0x34, 0x12] + rest;
      && Instruction(code, NOTHING) == Plain(5)
      && CopyInstruction(code, src, dst).Some? && CopyInstruction(code, src, dst).value.cbSrc == 11
  {
    StaleDecoded(rest);
    StaleCopied([0x48, 0x66, 0xb8, 0x34, 0x12] + rest, src, dst);
  }

  lemma StaleDecoded(rest: seq<byte>)
    ensures Instruction([0x48, 0x66, 0xb8, 0x34, 0x12] + rest, NOTHING) == Plain(5)
  {
    var code := [0x48, 0x66, 0xb8, 0x34, 0x12] + rest;
    var c1 := code[1..];
    var c2 := c1[1..];
    assert c1[0] == 0x66 && c2[0] == 0xb8;
    hide Modded, HasModRm, HasByte, HasImmZ;
    MovAlone();
    assert Instruction(c2, After(After(NOTHING, 0x48), 0x66)) == Plain(3);
    assert Instruction(c1, After(NOTHING, 0x48)) == Plain(4);
  }

  lemma MovAlone()
    ensures !HasModRm(0xb8) && !HasByte(0xb8) && !HasImmZ(0xb8)
  {}

  lemma StaleCopied(code: seq<byte>, src: int, dst: int)
    requires |code| >= 11 && code[0] == 0x48 && code[1] == 0x66 && code[2] == 0xb8
    ensures CopyInstruction(code, src, dst).Some? && CopyInstruction(code, src, dst).value.cbSrc == 11
  {
    hide CopyTable, CopyBytesOf, Copy, Right;
    var c1 := code[1..];
    var c2 := c1[1..];
    assert c1[0] == 0x66 && c2[0] == 0xb8;
    PrefixNoted(NO_OVERRIDES, code, src, dst);
    PrefixNoted(Noted(NO_OVERRIDES, 0x48), c1, src + 1, dst + 1);
    OtherEntries();
    var o := Noted(Noted(NO_OVERRIDES, 0x48), 0x66);
    NineBytes(o, c2, src + 2, dst + 2);
    CopyOfBytes(Bytes3Or5Rax, o, c2, src + 2, dst + 2);
  }

  lemma NineBytes(o: Overrides, code: seq<byte>, src: int, dst: int)
    requires o.rax && |code| >= 9
    ensures var c := CopyBytesOf(Bytes3Or5Rax, o, code, src, dst); c.Some? && c.value.cbSrc == 9
  {
    PlainRight(Bytes3Or5Rax, o, code, src, dst);
  }

  /** XBEGIN has a field that is relative to the next instruction, where a transaction goes on that is aborted.
    * The copier takes it for an immediate: the copy goes on elsewhere.
    */
  lemma XbeginIsNotMoved(code: seq<byte>, src: int, dst: int)
    requires |code| >= 6 && code[0] == 0xc7 && code[1] == 0xf8
    ensures var c := CopyInstruction(code, src, dst);
      && c.Some? && c.value.cbSrc == 6 && c.value.bytes == code[..6]
      && (dst + 6 + Signed(c.value.bytes[2..6]) == src + 6 + Signed(code[2..6]) <==> src == dst)
  {
    hide CopyTable, CopyBytesOf, Copy, Signed;
    XbeginEntry();
    ModRmEntries(0xc7);
    CopyOfBytes(Bytes2ModOperand, NO_OVERRIDES, code, src, dst);
    ImmediateCopied(code, src, dst);
    assert code[..6][2..6] == code[2..6];
  }

  lemma XbeginEntry()
    ensures HasModRm(0xc7) && !HasModRmByte(0xc7) && HasModRmImmZ(0xc7)
  {}

  lemma ImmediateCopied(code: seq<byte>, src: int, dst: int)
    requires |code| >= 6 && code[1] == 0xf8
    ensures CopyBytesOf(Bytes2ModOperand, NO_OVERRIDES, code, src, dst) == Some(Copied(code[..6], 6, NoTarget, 0))
  {
    hide LittleEndian, Signed, Fits;
  }

  // -------------------------------------------------------------------- No instructions

  /** The opcodes that are not copied: those without a meaning in 64-bit mode, UD0 and UD1. */
  lemma InvalidAre(b: byte)
    ensures CopyTable(b) == Invalid <==>
      b in {0x06, 0x07, 0x0e, 0x16, 0x17, 0x1e, 0x1f, 0x27, 0x2f, 0x37, 0x3f, 0x60, 0x61, 0x82, 0x9a, 0xce, 0xd4, 0xd5, 0xd6, 0xea}
    ensures CopyTable0F(b) == Invalid <==>
      b in {0x04, 0x0a, 0x0c, 0x24, 0x25, 0x26, 0x27, 0x36, 0x39, 0x3b, 0x3c, 0x3d, 0x3e, 0x3f, 0x7a, 0x7b, 0xb9, 0xff}
  {}

  /** The instructions with a fixed size that are reported to go somewhere unknown: far returns, interrupts
    * and the return from one.
    */
  lemma DynamicAre(b: byte)
    ensures CopyTable(b).CopyBytes? && CopyTable(b).flag == DYNAMIC <==> b in {0xca, 0xcb, 0xcc, 0xcd, 0xcf, 0xf1}
    ensures CopyTable0F(b).CopyBytes? ==> CopyTable0F(b).flag != DYNAMIC
  {}
}
