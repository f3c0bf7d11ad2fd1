/** How long an x64 instruction is and where its relative field lies, as the processor reads it in 64-bit mode
  * (Intel Software Developer's Manual, volume 2A, section 2.1, and volume 2D, appendix A; for XOP the AMD64
  * Architecture Programmer's Manual, volume 6): prefixes, opcode, mod/rm byte, SIB byte, displacement and
  * immediate. What has no meaning there has no length. This does not look at the copier's tables.
  */
module X64Length {
  import opened PayloadLayout
  import opened X64Simulation

  /** Size, the offset and size of a field that is relative to the next instruction, and whether it is a
    * short jump, which a copy widens.
    */
  datatype Decoded = Decoded(size: nat, rel: Option<(nat, nat)>, short: bool)

  /** What the prefixes so far say. Only a REX prefix next to the opcode counts. */
  datatype Seen = Seen(operand: bool, address: bool, f2: bool, rexW: bool, any: bool)

  const NOTHING := Seen(false, false, false, false, false)

  predicate IsRex(b: byte) { 0x40 <= b < 0x50 }

  /** `any` is set by the prefixes that VEX, EVEX and XOP do not allow. */
  function After(e: Seen, b: byte): Seen {
    if IsRex(b) then e.(rexW := b % 0x10 >= 8, any := true)
    else
      var next := e.(rexW := false);
      if b == 0x66 then next.(operand := true, any := true)
      else if b == 0x67 then next.(address := true)
      else if b == 0xf2 then next.(f2 := true, any := true)
      else if b == 0xf3 || b == 0xf0 then next.(any := true)
      else next
  }

  // -------------------------------------------------------------------------- Operands

  /** Bytes of a mod/rm operand: the byte itself, a SIB byte and a displacement. */
  function AddressLength(s: seq<byte>): Option<nat> {
    if s == [] then None
    else
      var mod: int, rm: int := s[0] / 0x40, s[0] % 8;
      if mod == 3 then Some(1)
      else if rm == 4 then
        if |s| < 2 then None
        else if mod == 1 then Some(3)
        else if mod == 2 then Some(6)
        else if s[1] % 8 == 5 then Some(6)
        else Some(2)
      else if mod == 1 then Some(2)
      else if mod == 2 then Some(5)
      else if rm == 5 then Some(5)
      else Some(1)
  }

  /** [rip + disp32]. */
  predicate IsRipOperand(b: byte) { b / 0x40 == 0 && b % 8 == 5 }

  /** An instruction with its mod/rm byte at `at` and an immediate of `imm` bytes. */
  function Modded(s: seq<byte>, at: nat, imm: nat): Option<Decoded> {
    if |s| <= at || AddressLength(s[at..]).None? then None
    else Some(Decoded(at + AddressLength(s[at..]).value + imm, if IsRipOperand(s[at]) then Some((at + 1, 4)) else None, false))
  }

  function Plain(size: nat): Option<Decoded> { Some(Decoded(size, None, false)) }

  function Relative(size: nat, at: nat, short: bool): Option<Decoded>
    requires at <= size
  {
    Some(Decoded(size, Some((at, size - at)), short))
  }

  /** An immediate of the operand size, but at most four bytes. */
  function ImmZ(e: Seen): nat { if e.rexW then 4 else if e.operand then 2 else 4 }

  /** An immediate of the operand size. */
  function ImmV(e: Seen): nat { if e.rexW then 8 else if e.operand then 2 else 4 }

  function RegField(b: byte): nat { b / 8 % 8 }

  // ------------------------------------------------------------------------ Opcode maps

  predicate HasModRm(b: byte) {
    || (b < 0x40 && b % 8 < 4) || b == 0x63 || b == 0x69 || b == 0x6b || (0x80 <= b < 0x90 && b != 0x82)
    || b == 0xc0 || b == 0xc1 || b == 0xc6 || b == 0xc7 || 0xd0 <= b < 0xd4 || 0xd8 <= b < 0xe0
    || b == 0xf6 || b == 0xf7 || b == 0xfe || b == 0xff
  }

  predicate HasModRmByte(b: byte) { b == 0x6b || b == 0x80 || b == 0x83 || b == 0xc0 || b == 0xc1 || b == 0xc6 }

  predicate HasModRmImmZ(b: byte) { b == 0x69 || b == 0x81 || b == 0xc7 }

  predicate HasByte(b: byte) { (b < 0x40 && b % 8 == 4) || b == 0x6a || b == 0xa8 || 0xb0 <= b < 0xb8 || b == 0xcd || 0xe4 <= b < 0xe8 }

  predicate HasImmZ(b: byte) { (b < 0x40 && b % 8 == 5) || b == 0x68 || b == 0xa9 }

  predicate IsAlone(b: byte) {
    || 0x50 <= b < 0x60 || 0x6c <= b < 0x70 || (0x90 <= b < 0xa0 && b != 0x9a) || 0xa4 <= b < 0xa8 || 0xaa <= b < 0xb0
    || b == 0xc3 || b == 0xc9 || b == 0xcb || b == 0xcc || b == 0xcf || b == 0xd7 || 0xec <= b < 0xf0
    || b == 0xf1 || b == 0xf4 || b == 0xf5 || 0xf8 <= b < 0xfe
  }

  /** Opcodes of one byte; TEST is the first of the third group. XBEGIN, C7 F8, is not among them. */
  function OneByte(s: seq<byte>, e: Seen): Option<Decoded>
    requires s != []
  {
    var b := s[0];
    if b == 0xf6 || b == 0xf7 then
      if |s| < 2 || RegField(s[1]) == 1 then None
      else Modded(s, 1, if RegField(s[1]) != 0 then 0 else if b == 0xf6 then 1 else ImmZ(e))
    else if b == 0xc7 && |s| >= 2 && s[1] == 0xf8 then None
    else if HasModRm(b) then Modded(s, 1, if HasModRmByte(b) then 1 else if HasModRmImmZ(b) then ImmZ(e) else 0)
    else if HasByte(b) then Plain(2)
    else if HasImmZ(b) then Plain(1 + ImmZ(e))
    else if 0xb8 <= b < 0xc0 then Plain(1 + ImmV(e))
    else if 0xa0 <= b < 0xa4 then Plain(1 + if e.address then 4 else 8)
    else if b == 0xc2 || b == 0xca then Plain(3)
    else if b == 0xc8 then Plain(4)
    else if 0x70 <= b < 0x80 || b == 0xeb then Relative(2, 1, true)
    else if 0xe0 <= b < 0xe4 then Relative(2, 1, false)
    else if b == 0xe8 || b == 0xe9 then Relative(5, 1, false)
    else if IsAlone(b) then Plain(1)
    else None
  }

  predicate HasModRm0F(b: byte) {
    || b < 0x04 || b == 0x0d || 0x10 <= b < 0x20 || 0x28 <= b < 0x30 || 0x40 <= b < 0x70 || 0x74 <= b < 0x77 || b == 0x79 || 0x7c <= b < 0x80
    || 0x90 <= b < 0xa0 || b == 0xa3 || b == 0xa5 || b == 0xab || 0xad <= b < 0xba || 0xbb <= b < 0xc2 || b == 0xc3 || b == 0xc7 || 0xd0 <= b
  }

  predicate HasModRmByte0F(b: byte) {
    b == 0x0f || 0x70 <= b < 0x74 || b == 0xa4 || b == 0xac || b == 0xba || b == 0xc2 || 0xc4 <= b < 0xc7
  }

  predicate IsAlone0F(b: byte) {
    || 0x05 <= b < 0x0a || b == 0x0b || b == 0x0e || 0x30 <= b < 0x36 || b == 0x37 || b == 0x77
    || 0xa0 <= b < 0xa3 || 0xa8 <= b < 0xab || 0xc8 <= b < 0xd0
  }

  /** Opcodes behind the escape 0F. Moves to and from control registers have a register operand whatever the mod
    * field is; EXTRQ and INSERTQ have two immediate bytes.
    */
  function TwoByte(s: seq<byte>, e: Seen): Option<Decoded> {
    if |s| < 2 then None
    else
      var b := s[1];
      if b == 0x38 then Modded(s, 3, 0)
      else if b == 0x3a then Modded(s, 3, 1)
      else if 0x20 <= b < 0x24 then Plain(3)
      else if b == 0x78 && (e.operand || e.f2) then if |s| >= 3 && s[2] >= 0xc0 then Plain(5) else None
      else if b == 0x78 || HasModRm0F(b) then Modded(s, 2, 0)
      else if HasModRmByte0F(b) then Modded(s, 2, 1)
      else if 0x80 <= b < 0x90 then Relative(6, 2, false)
      else if IsAlone0F(b) then Plain(2)
      else None
  }

  /** The first opcode map of VEX and EVEX. */
  predicate HasVexModRm(b: byte) {
    || 0x10 <= b < 0x18 || 0x28 <= b < 0x30 || 0x41 <= b < 0x70 || 0x74 <= b < 0x77 || 0x7c <= b < 0x80
    || 0x90 <= b < 0xa0 || b == 0xae || 0xd0 <= b < 0xff
  }

  predicate HasVexModRmByte(b: byte) { 0x70 <= b < 0x74 || b == 0xc2 || 0xc4 <= b < 0xc7 }

  /** Opcode `at` bytes behind the prefix, in map `m`. */
  function VexOpcode(s: seq<byte>, at: nat, m: nat, evex: bool): Option<Decoded> {
    if |s| <= at then None
    else
      var b := s[at];
      if m == 1 then
        if HasVexModRm(b) || (evex && 0x78 <= b < 0x7c) then Modded(s, at + 1, 0)
        else if HasVexModRmByte(b) then Modded(s, at + 1, 1)
        else if b == 0x77 && !evex then Plain(at + 1)
        else None
      else if m == 2 || (evex && (m == 5 || m == 6)) then Modded(s, at + 1, 0)
      else if m == 3 then Modded(s, at + 1, 1)
      else None
  }

  /** Prefixes of several bytes, which leave room for no others but segments and address size. */
  function Extended(s: seq<byte>, e: Seen): Option<Decoded>
    requires s != []
  {
    if e.any || |s| < 3 then None
    else if s[0] == 0xc5 then VexOpcode(s, 2, 1, false)
    else if s[0] == 0xc4 then VexOpcode(s, 3, s[1] % 0x20, false)
    else if s[0] == 0x62 then if s[1] / 8 % 2 == 0 && s[2] / 4 % 2 == 1 then VexOpcode(s, 4, s[1] % 8, true) else None
    else if s[1] % 0x20 == 8 then Modded(s, 4, 1)
    else if s[1] % 0x20 == 9 then Modded(s, 4, 0)
    else if s[1] % 0x20 == 10 then Modded(s, 4, 4)
    else None
  }

  /** XOP instead of POP. */
  predicate IsXop(s: seq<byte>) { |s| >= 2 && s[0] == 0x8f && s[1] % 0x20 >= 8 }

  /** From the opcode on. */
  function Opcode(s: seq<byte>, e: Seen): Option<Decoded>
    requires s != []
  {
    if s[0] == 0x0f then TwoByte(s, e)
    else if s[0] == 0xc4 || s[0] == 0xc5 || s[0] == 0x62 || IsXop(s) then Extended(s, e)
    else OneByte(s, e)
  }

  function Shifted(d: Option<Decoded>): Option<Decoded> {
    match d
    case None => None
    case Some(x) => Some(x.(size := 1 + x.size, rel := match x.rel case None => None case Some(f) => Some((1 + f.0, f.1))))
  }

  /** The instruction that the bytes begin with, behind its prefixes. */
  function Instruction(s: seq<byte>, e: Seen): (d: Option<Decoded>)
    ensures d.Some? ==> s != [] && d.value.size >= 1
  {
    if s == [] then None
    else if IsPrefix(s[0]) then Shifted(Instruction(s[1..], After(e, s[0])))
    else Opcode(s, e)
  }

  /** A REX prefix stands next to the opcode, as the processor wants it. */
  predicate RexLast(s: seq<byte>) {
    s == [] || !IsPrefix(s[0]) || (if IsRex(s[0]) then |s| < 2 || !IsPrefix(s[1]) else RexLast(s[1..]))
  }
}
