/** The x64 instruction copier (detours/src/disasm.cpp:145-920): the opcode tables, and what copying one
  * instruction from `src` to `dst` writes, returns and reports. Bytes are numbers; the instruction is
  * given as the bytes that begin at `src`, as many as there are.
  */
module X64Copy {
  import opened PayloadLayout

  // ------------------------------------------------------------------ Opcode tables

  /** COPYENTRY: how many bytes, where the mod/rm byte and a relative field are, or which routine. */
  datatype CopyEntry =
    | CopyBytes(nFixedSize: nat, nFixedSize16: nat, nModOffset: nat, nRelOffset: nat, flag: Flag)
    | CopyBytesPrefix | CopyBytesSegment | CopyBytesRax | Copy66 | Copy67 | CopyF2 | CopyF3
    | Copy0F | Copy0F78 | CopyBytesJump | CopyF6 | CopyF7 | CopyFF | CopyVex2 | CopyVex3 | CopyEvex | CopyXop | Invalid

  datatype Flag = NoFlag | DYNAMIC | ADDRESS | NOENLARGE | RAX

  const Bytes1 := CopyBytes(1, 1, 0, 0, NoFlag)
  const Bytes1Address := CopyBytes(9, 5, 0, 0, ADDRESS)
  const Bytes1Dynamic := CopyBytes(1, 1, 0, 0, DYNAMIC)
  const Bytes2 := CopyBytes(2, 2, 0, 0, NoFlag)
  const Bytes2CantJump := CopyBytes(2, 2, 0, 1, NOENLARGE)
  const Bytes2Dynamic := CopyBytes(2, 2, 0, 0, DYNAMIC)
  const Bytes3 := CopyBytes(3, 3, 0, 0, NoFlag)
  const Bytes3Dynamic := CopyBytes(3, 3, 0, 0, DYNAMIC)
  const Bytes3Or5 := CopyBytes(5, 3, 0, 0, NoFlag)
  const Bytes3Or5Rax := CopyBytes(5, 3, 0, 0, RAX)
  const Bytes3Or5Target := CopyBytes(5, 5, 0, 1, NoFlag)
  const Bytes4 := CopyBytes(4, 4, 0, 0, NoFlag)
  const Bytes2Mod := CopyBytes(2, 2, 1, 0, NoFlag)
  const Bytes2Mod1 := CopyBytes(3, 3, 1, 0, NoFlag)
  const Bytes2ModOperand := CopyBytes(6, 4, 1, 0, NoFlag)
  const Bytes3Mod := CopyBytes(3, 3, 2, 0, NoFlag)
  const Bytes3Mod1 := CopyBytes(4, 4, 2, 0, NoFlag)
  const BytesXop := CopyBytes(5, 5, 4, 0, NoFlag)
  const BytesXop1 := CopyBytes(6, 6, 4, 0, NoFlag)
  const BytesXop4 := CopyBytes(9, 9, 4, 0, NoFlag)

  /** s_rceCopyTable. */
  function CopyTable(b: byte): CopyEntry {
    if b < 0x40 then Arithmetic(b)
    else if b < 0x50 then CopyBytesRax
    else if b < 0x60 then Bytes1
    else if b < 0x70 then
      if b < 0x62 then Invalid
      else if b == 0x62 then CopyEvex
      else if b == 0x63 then Bytes2Mod
      else if b < 0x66 then CopyBytesSegment
      else if b == 0x66 then Copy66
      else if b == 0x67 then Copy67
      else if b == 0x68 then Bytes3Or5
      else if b == 0x69 then Bytes2ModOperand
      else if b == 0x6a then Bytes2
      else if b == 0x6b then Bytes2Mod1
      else Bytes1
    else if b < 0x80 then CopyBytesJump
    else if b < 0x90 then
      if b == 0x80 || b == 0x83 then Bytes2Mod1
      else if b == 0x81 then Bytes2ModOperand
      else if b == 0x82 then Invalid
      else if b == 0x8f then CopyXop
      else Bytes2Mod
    else if b < 0xa0 then if b == 0x9a then Invalid else Bytes1
    else if b < 0xb0 then
      if b < 0xa4 then Bytes1Address
      else if b == 0xa8 then Bytes2
      else if b == 0xa9 then Bytes3Or5
      else Bytes1
    else if b < 0xc0 then if b < 0xb8 then Bytes2 else Bytes3Or5Rax
    else if b < 0xe0 then HighOpcodes(b)
    else LastOpcodes(b)
  }

  /** 00 to 3F: eight arithmetic operations in six forms, segment prefixes, and the escape 0F. */
  function Arithmetic(b: byte): CopyEntry {
    if b % 8 < 4 then Bytes2Mod
    else if b % 8 == 4 then Bytes2
    else if b % 8 == 5 then Bytes3Or5
    else if b == 0x0f then Copy0F
    else if b == 0x26 || b == 0x2e || b == 0x36 || b == 0x3e then CopyBytesSegment
    else Invalid
  }

  /** C0 to DF. */
  function HighOpcodes(b: byte): CopyEntry {
    if b < 0xc2 || b == 0xc6 then Bytes2Mod1
    else if b == 0xc2 then Bytes3
    else if b == 0xc3 || b == 0xc9 || b == 0xd7 then Bytes1
    else if b == 0xc4 then CopyVex3
    else if b == 0xc5 then CopyVex2
    else if b == 0xc7 then Bytes2ModOperand
    else if b == 0xc8 then Bytes4
    else if b == 0xca then Bytes3Dynamic
    else if b == 0xcb || b == 0xcc || b == 0xcf then Bytes1Dynamic
    else if b == 0xcd then Bytes2Dynamic
    else if b == 0xce || b == 0xd4 || b == 0xd5 || b == 0xd6 then Invalid
    else Bytes2Mod
  }

  /** E0 to FF. */
  function LastOpcodes(b: byte): CopyEntry {
    if b < 0xe4 then Bytes2CantJump
    else if b < 0xe8 then Bytes2
    else if b < 0xea then Bytes3Or5Target
    else if b == 0xea then Invalid
    else if b == 0xeb then CopyBytesJump
    else if b == 0xf0 then CopyBytesPrefix
    else if b == 0xf1 then Bytes1Dynamic
    else if b == 0xf2 then CopyF2
    else if b == 0xf3 then CopyF3
    else if b == 0xf6 then CopyF6
    else if b == 0xf7 then CopyF7
    else if b == 0xfe then Bytes2Mod
    else if b == 0xff then CopyFF
    else Bytes1
  }

  /** s_rceCopyTable0F, for the byte after 0F. */
  function CopyTable0F(b: byte): CopyEntry {
    if b < 0x10 then
      if b == 0x04 || b == 0x0a || b == 0x0c then Invalid
      else if b == 0x0f then Bytes2Mod1
      else if b < 0x04 || b == 0x0d then Bytes2Mod
      else Bytes1
    else if b < 0x30 then if 0x24 <= b < 0x28 then Invalid else Bytes2Mod
    else if b < 0x40 then
      if b < 0x38 then if b == 0x36 then Invalid else Bytes1
      else if b == 0x38 then Bytes3Mod
      else if b == 0x3a then Bytes3Mod1
      else Invalid
    else if b < 0x70 then Bytes2Mod
    else if b < 0x80 then
      if b < 0x74 then Bytes2Mod1
      else if b == 0x77 then Bytes1
      else if b == 0x78 then Copy0F78
      else if b == 0x7a || b == 0x7b then Invalid
      else Bytes2Mod
    else if b < 0x90 then Bytes3Or5Target
    else if b < 0xa0 then Bytes2Mod
    else if b < 0xb0 then
      if b == 0xa4 || b == 0xac then Bytes2Mod1
      else if b < 0xa3 || 0xa8 <= b < 0xab then Bytes1
      else Bytes2Mod
    else if b < 0xc0 then if b == 0xb9 then Invalid else if b == 0xba then Bytes2Mod1 else Bytes2Mod
    else if b < 0xd0 then
      if b == 0xc2 || 0xc4 <= b < 0xc7 then Bytes2Mod1
      else if b < 0xc8 then Bytes2Mod
      else Bytes1
    else if b == 0xff then Invalid
    else Bytes2Mod
  }

  // ------------------------------------------------------------------------ Numbers

  /** The `n` low bytes of a number in two's complement, least significant first. */
  function LittleEndian(n: nat, x: int): (s: seq<byte>)
    ensures |s| == n
  {
    if n == 0 then [] else [x % 0x100] + LittleEndian(n - 1, x / 0x100)
  }

  function Unsigned(s: seq<byte>): nat {
    if s == [] then 0 else
      var b: int := s[0];
      b + 0x100 * Unsigned(s[1..])
  }

  function Power(n: nat): (p: nat)
    ensures p > 0
  {
    if n == 0 then 1 else 0x100 * Power(n - 1)
  }

  /** A signed field of `|s|` bytes. */
  function Signed(s: seq<byte>): int {
    if 2 * Unsigned(s) < Power(|s|) then Unsigned(s) else Unsigned(s) - Power(|s|)
  }

  predicate Fits(n: nat, x: int) {
    var p: int := Power(n);
    -p <= 2 * x < p
  }

  // ------------------------------------------------------------------- One instruction

  /** The prefixes seen so far. */
  datatype Overrides = Overrides(operand: bool, address: bool, rax: bool, f2: bool, f3: bool, segment: nat)

  const NO_OVERRIDES := Overrides(false, false, false, false, false, 0)

  /** A target of `Through` is the pointer that the memory holds at an address. */
  datatype Target = NoTarget | DynamicTarget | At(address: int) | Through(ppbTarget: int)

  /** The bytes written, how many were read, the reported target, and the extra length. */
  datatype Copied = Copied(bytes: seq<byte>, cbSrc: nat, target: Target, extra: int)

  /** The bits of s_rbModRm: displacement bytes, and whether a SIB byte or a RIP-relative field follows. */
  function ModRmBytes(bModRm: byte): nat {
    var m, r: int := bModRm / 0x40, bModRm % 8;
    if m == 0 then (if r == 4 then 1 else if r == 5 then 4 else 0)
    else if m == 1 then (if r == 4 then 2 else 1)
    else if m == 2 then (if r == 4 then 5 else 4)
    else 0
  }

  predicate HasSib(bModRm: byte) { bModRm < 0x40 && bModRm % 8 == 4 }

  predicate IsRip(bModRm: byte) { bModRm < 0x40 && bModRm % 8 == 5 }

  /** The size of the instruction from its opcode byte on, or None if the bytes end before it is known. */
  function SizeOf(e: CopyEntry, o: Overrides, code: seq<byte>): Option<nat>
    requires e.CopyBytes?
  {
    var fixed :=
      if e.flag == ADDRESS then (if o.address then e.nFixedSize16 else e.nFixedSize)
      else if o.rax then e.nFixedSize + (if e.flag == RAX then 4 else 0)
      else if o.operand then e.nFixedSize16
      else e.nFixedSize;
    if e.nModOffset == 0 then Some(fixed)
    else if |code| <= e.nModOffset + 1 && (|code| <= e.nModOffset || HasSib(code[e.nModOffset])) then None
    else
      var bModRm := code[e.nModOffset];
      Some(fixed + ModRmBytes(bModRm) + if HasSib(bModRm) && code[e.nModOffset + 1] % 8 == 5 then 4 else 0)
  }

  /** Offset and size of the field that is relative to the next instruction, if there is one. */
  function RelField(e: CopyEntry, code: seq<byte>, nBytes: nat): Option<(nat, nat)>
    requires e.CopyBytes? && (e.nModOffset > 0 ==> |code| > e.nModOffset) && e.nRelOffset <= nBytes
  {
    if e.nModOffset > 0 && IsRip(code[e.nModOffset]) then Some((e.nModOffset + 1, 4))
    else if e.nRelOffset > 0 then Some((e.nRelOffset, nBytes - e.nRelOffset))
    else None
  }

  /** AdjustTarget on the copied bytes: the field moves by the distance of the copy. */
  function Adjusted(bytes: seq<byte>, field: (nat, nat), src: int, dst: int): seq<byte>
    requires field.0 + field.1 <= |bytes|
  {
    var old' := Signed(bytes[field.0..field.0 + field.1]);
    bytes[..field.0] + LittleEndian(field.1, old' - (dst - src)) + bytes[field.0 + field.1..]
  }

  /** CopyBytes. */
  function CopyBytesOf(e: CopyEntry, o: Overrides, code: seq<byte>, src: int, dst: int): Option<Copied>
    requires e.CopyBytes? && (e.nModOffset > 0 ==> e.nRelOffset == 0)
  {
    match SizeOf(e, o, code)
    case None => None
    case Some(nBytes) =>
      if |code| < nBytes || nBytes < e.nRelOffset || (e.nModOffset > 0 && nBytes <= e.nModOffset) then None
      else
        var bytes := code[..nBytes];
        match RelField(e, code, nBytes)
        case None => Some(Copied(bytes, nBytes, if e.flag == DYNAMIC then DynamicTarget else NoTarget, 0))
        case Some(f) =>
          if f.0 + f.1 > nBytes then None
          else
            var offset := Signed(bytes[f.0..f.0 + f.1]);
            var target := if e.nRelOffset == 0 then NoTarget else At(src + nBytes + offset);
            var extra := if Fits(f.1, offset - (dst - src)) then 0 else 4 - f.1;
            Some(Copied(Adjusted(bytes, f, src, dst), nBytes,
                        if e.flag == DYNAMIC then DynamicTarget else target,
                        if e.flag == NOENLARGE then -extra else extra))
  }

  /** CopyBytesJump: a short jump becomes a near one. */
  function CopyJump(code: seq<byte>, src: int, dst: int): Option<Copied>
    requires code != [] && (code[0] == 0xeb || 0x70 <= code[0] < 0x80)
  {
    if |code| < 2 then None
    else
      var nOldOffset := Signed(code[1..2]);
      var target := At(src + 2 + nOldOffset);
      if code[0] == 0xeb then
        Some(Copied([0xe9] + LittleEndian(4, nOldOffset - (dst - src + 3)), 2, target, 3))
      else
        Some(Copied([0x0f, 0x80 + code[0] % 0x10] + LittleEndian(4, nOldOffset - (dst - src + 4)), 2, target, 4))
  }

  /** A prefix or escape of some bytes, copied in front of the rest. */
  function Behind(front: seq<byte>, rest: Option<Copied>): (r: Option<Copied>)
    ensures r.Some? <==> rest.Some?
  {
    match rest
    case None => None
    case Some(c) => Some(c.(bytes := front + c.bytes, cbSrc := |front| + c.cbSrc))
  }

  /** The routine of an entry, applied to the bytes from `src` on. */
  function Copy(e: CopyEntry, o: Overrides, code: seq<byte>, src: int, dst: int): Option<Copied>
    decreases |code|, if e.CopyBytes? then 0 else 1
  {
    if code == [] then None
    else match e
      case CopyBytes(_, _, _, _, _) => if e.nModOffset > 0 && e.nRelOffset > 0 then None else CopyBytesOf(e, o, code, src, dst)
      case CopyBytesJump => if code[0] == 0xeb || 0x70 <= code[0] < 0x80 then CopyJump(code, src, dst) else None
      case CopyBytesPrefix => Prefixed(o, code, src, dst)
      case CopyBytesSegment => Prefixed(o.(segment := code[0]), code, src, dst)
      case CopyBytesRax => Prefixed(o.(rax := o.rax || code[0] / 8 % 2 == 1), code, src, dst)
      case Copy66 => Prefixed(o.(operand := true), code, src, dst)
      case Copy67 => Prefixed(o.(address := true), code, src, dst)
      case CopyF2 => Prefixed(o.(f2 := true), code, src, dst)
      case CopyF3 => Prefixed(o.(f3 := true), code, src, dst)
      case Copy0F => if |code| < 2 then None else Behind(code[..1], Copy(CopyTable0F(code[1]), o, code[1..], src + 1, dst + 1))
      case Copy0F78 => CopyBytesOf(if o.f2 || o.operand then Bytes4 else Bytes2Mod, o, code, src, dst)
      case CopyF6 => if |code| < 2 then None else CopyBytesOf(if code[1] / 8 % 8 == 0 then Bytes2Mod1 else Bytes2Mod, o, code, src, dst)
      case CopyF7 => if |code| < 2 then None else CopyBytesOf(if code[1] / 8 % 8 == 0 then Bytes2ModOperand else Bytes2Mod, o, code, src, dst)
      case CopyFF => CopyIndirect(o, code, src, dst)
      case CopyVex2 => if |code| < 3 then None else Vex(1, 2, code[1] % 4, o, code, src, dst)
      case CopyVex3 => if |code| < 4 then None else Vex(code[1] % 0x20, 3, code[2] % 4, o.(rax := o.rax || code[2] >= 0x80), code, src, dst)
      case CopyEvex =>
        if |code| < 5 then None
        else if code[1] / 8 % 2 == 1 || code[2] / 4 % 2 == 0 then Some(Copied([], 1, NoTarget, 0))
        else Vex(code[1] % 4 + code[1] / 4 % 2 * 4, 4, code[2] % 4, o.(rax := o.rax || code[2] >= 0x80), code, src, dst)
      case CopyXop =>
        if |code| < 2 then None
        else
          var m := code[1] % 0x20;
          CopyBytesOf(if m == 8 then BytesXop1 else if m == 9 then BytesXop else if m == 10 then BytesXop4 else Bytes2Mod, o, code, src, dst)
      case Invalid => Some(Copied([], 1, NoTarget, 0))
  }

  /** CopyBytesPrefix. */
  function Prefixed(o: Overrides, code: seq<byte>, src: int, dst: int): Option<Copied>
    requires code != []
    decreases |code|, 0
  {
    if |code| < 2 then None else Behind(code[..1], Copy(CopyTable(code[1]), o, code[1..], src + 1, dst + 1))
  }

  /** CopyVexEvexCommon behind `n` prefix bytes; `m` selects the opcode map, `p` an implied prefix. */
  function Vex(m: nat, n: nat, p: nat, o: Overrides, code: seq<byte>, src: int, dst: int): Option<Copied>
    requires 0 < n < |code|
    decreases |code|, 0
  {
    var o' := if p == 1 then o.(operand := true) else if p == 2 then o.(f3 := true) else if p == 3 then o.(f2 := true) else o;
    var rest := code[n..];
    if m == 1 then Behind(code[..n], Copy(CopyTable0F(rest[0]), o', rest, src + n, dst + n))
    else if m == 2 || m == 5 || m == 6 then Behind(code[..n], CopyBytesOf(Bytes2Mod, o', rest, src + n, dst + n))
    else if m == 3 then Behind(code[..n], CopyBytesOf(Bytes2Mod1, o', rest, src + n, dst + n))
    else Behind(code[..n], Some(Copied([], 1, NoTarget, 0)))
  }

  /** CopyFF: a jump or call through a pointer next to the code has the pointer for a target, unless FS or
    * GS moves it; one through a register or other memory has a target that is not known here.
    */
  function CopyIndirect(o: Overrides, code: seq<byte>, src: int, dst: int): Option<Copied>
    requires code != []
  {
    match CopyBytesOf(Bytes2Mod, o, code, src, dst)
    case None => None
    case Some(c) =>
      if |code| < 2 then None
      else if code[1] == 0x15 || code[1] == 0x25 then
        if |code| >= 6 && o.segment != 0x64 && o.segment != 0x65 then Some(c.(target := Through(src + 6 + Signed(code[2..6]))))
        else Some(c.(target := DynamicTarget))
      else if code[1] / 0x10 % 4 == 1 || code[1] / 0x10 % 4 == 2 then Some(c.(target := DynamicTarget))
      else Some(c)
  }

  /** CopyInstruction. */
  function CopyInstruction(code: seq<byte>, src: int, dst: int): Option<Copied> {
    if code == [] then None else Copy(CopyTable(code[0]), NO_OVERRIDES, code, src, dst)
  }
}
