/** A 128-bit IA64 bundle, a 5-bit template and three 41-bit instructions, as `DETOUR_IA64_BUNDLE` reads
  * and writes it (detours/src/disasm.cpp:1612-2211). The instruction formats are those of the Intel
  * Itanium Architecture Software Developer's Manual, volume 3.
  */
module Ia64Bundle {
  type Word = bv64

  datatype Bundle = Bundle(wide0: Word, wide1: Word)

  datatype Unit = NO_UNIT | I_UNIT | M_UNIT | B_UNIT | F_UNIT | L_UNIT | X_UNIT

  type SlotIndex = k: nat | k < 3

  const INSTRUCTION: Word := 0x1ff_ffff_ffff

  predicate Aligned(w: Word) { w & 0xf == 0 }

  // ------------------------------------------------------------- Template and slots

  function TemplateBits(w: Word): Word { w & 0x1f }

  function Template(b: Bundle): Word { TemplateBits(b.wide0) }

  /** The units of a template; a template and the one with a stop at the end have the same. */
  function Units(template: Word): (Unit, Unit, Unit) {
    match template & 0x1e
    case 0x00 => (M_UNIT, I_UNIT, I_UNIT)
    case 0x02 => (M_UNIT, I_UNIT, I_UNIT)
    case 0x04 => (M_UNIT, L_UNIT, X_UNIT)
    case 0x08 => (M_UNIT, M_UNIT, I_UNIT)
    case 0x0a => (M_UNIT, M_UNIT, I_UNIT)
    case 0x0c => (M_UNIT, F_UNIT, I_UNIT)
    case 0x0e => (M_UNIT, M_UNIT, F_UNIT)
    case 0x10 => (M_UNIT, I_UNIT, B_UNIT)
    case 0x12 => (M_UNIT, B_UNIT, B_UNIT)
    case 0x16 => (B_UNIT, B_UNIT, B_UNIT)
    case 0x18 => (M_UNIT, M_UNIT, B_UNIT)
    case 0x1c => (M_UNIT, F_UNIT, B_UNIT)
    case _ => (NO_UNIT, NO_UNIT, NO_UNIT)
  }

  function UnitOf(template: Word, k: SlotIndex): Unit {
    var units := Units(template);
    if k == 0 then units.0 else if k == 1 then units.1 else units.2
  }

  /** The table of templates of volume 3, section 3.3, by the letters of the units; empty if reserved. */
  function Letters(template: Word): (s: string)
    ensures |s| == 0 || |s| == 3
  {
    if template < 0x04 then "MII"
    else if template < 0x06 then "MLX"
    else if template < 0x08 then ""
    else if template < 0x0c then "MMI"
    else if template < 0x0e then "MFI"
    else if template < 0x10 then "MMF"
    else if template < 0x12 then "MIB"
    else if template < 0x14 then "MBB"
    else if template < 0x16 then ""
    else if template < 0x18 then "BBB"
    else if template < 0x1a then "MMB"
    else if template < 0x1c then ""
    else if template < 0x1e then "MFB"
    else ""
  }

  function LetterOf(unit: Unit): char {
    match unit
    case I_UNIT => 'I'
    case M_UNIT => 'M'
    case B_UNIT => 'B'
    case F_UNIT => 'F'
    case L_UNIT => 'L'
    case X_UNIT => 'X'
    case NO_UNIT => ' '
  }

  /** The units of all templates are the manual's. */
  lemma UnitsAre(template: Word, k: SlotIndex)
    requires template <= 0x1f
    ensures UnitOf(template, k) == NO_UNIT <==> Letters(template) == ""
    ensures Letters(template) != "" ==> LetterOf(UnitOf(template, k)) == Letters(template)[k]
  {}

  // Slot 0 lies in the lower word, slot 2 in the upper one and slot 1 across the two.
  function Low0(w: Word): Word { (w >> 5) & 0x1ff_ffff_ffff }
  function High2(w: Word): Word { w >> 23 }
  function PutLow0(w: Word, x: Word): Word { (w & 0xffff_c000_0000_001f) | ((x << 5) & 0x3fff_ffff_ffe0) }
  function PutLow1(w: Word, x: Word): Word { (w & 0x3fff_ffff_ffff) | ((x << 46) & 0xffff_c000_0000_0000) }
  function PutHigh1(w: Word, x: Word): Word { (w & 0xffff_ffff_ff80_0000) | ((x >> 18) & 0x7f_ffff) }
  function PutHigh2(w: Word, x: Word): Word { (w & 0x7f_ffff) | ((x << 23) & 0xffff_ffff_ff80_0000) }

  function Across(v: Word, w: Word): Word { (v >> 46) | ((w & 0x7f_ffff) << 18) }

  function Get(b: Bundle, k: SlotIndex): Word {
    if k == 0 then Low0(b.wide0) else if k == 1 then Across(b.wide0, b.wide1) else High2(b.wide1)
  }

  function Set(b: Bundle, k: SlotIndex, x: Word): Bundle {
    if k == 0 then Bundle(PutLow0(b.wide0, x), b.wide1)
    else if k == 1 then Bundle(PutLow1(b.wide0, x), PutHigh1(b.wide1, x))
    else Bundle(b.wide0, PutHigh2(b.wide1, x))
  }

  lemma Get0Set0(w: Word, x: Word)
    requires x <= 0x1ff_ffff_ffff
    ensures Low0(PutLow0(w, x)) == x
  {}

  lemma Get1Set1(v: Word, w: Word, x: Word)
    requires x <= 0x1ff_ffff_ffff
    ensures Across(PutLow1(v, x), PutHigh1(w, x)) == x
  {}

  lemma Get2Set2(w: Word, x: Word)
    requires x <= 0x1ff_ffff_ffff
    ensures High2(PutHigh2(w, x)) == x
  {}

  /** What is set is got. */
  lemma GetSet(b: Bundle, k: SlotIndex, x: Word)
    requires x <= INSTRUCTION
    ensures Get(Set(b, k, x), k) == x
  {
    hide Across, Low0, High2, TemplateBits, PutLow0, PutLow1, PutHigh1, PutHigh2;
    Get0Set0(b.wide0, x);
    Get1Set1(b.wide0, b.wide1, x);
    Get2Set2(b.wide1, x);
  }

  lemma Low0PutLow1(w: Word, x: Word)
    ensures Low0(PutLow1(w, x)) == Low0(w)
  {}

  lemma AcrossPutLow0(v: Word, w: Word, x: Word)
    ensures Across(PutLow0(v, x), w) == Across(v, w)
  {}

  lemma AcrossPutHigh2(v: Word, w: Word, x: Word)
    ensures Across(v, PutHigh2(w, x)) == Across(v, w)
  {}

  lemma High2PutHigh1(w: Word, x: Word)
    ensures High2(PutHigh1(w, x)) == High2(w)
  {}

  lemma TemplatePutLow0(w: Word, x: Word)
    ensures TemplateBits(PutLow0(w, x)) == TemplateBits(w)
  {}

  lemma TemplatePutLow1(w: Word, x: Word)
    ensures TemplateBits(PutLow1(w, x)) == TemplateBits(w)
  {}

  /** Neither the template nor another slot changes. */
  lemma SetKeepsOthers(b: Bundle, k: SlotIndex, x: Word, j: SlotIndex)
    ensures Template(Set(b, k, x)) == Template(b)
    ensures j != k ==> Get(Set(b, k, x), j) == Get(b, j)
  {
    hide Across, Low0, High2, TemplateBits, PutLow0, PutLow1, PutHigh1, PutHigh2;
    TemplatePutLow0(b.wide0, x);
    TemplatePutLow1(b.wide0, x);
    Low0PutLow1(b.wide0, x);
    AcrossPutLow0(b.wide0, b.wide1, x);
    AcrossPutHigh2(b.wide0, b.wide1, x);
    High2PutHigh1(b.wide1, x);
  }

  lemma PutLow0Low0(w: Word)
    ensures PutLow0(w, Low0(w)) == w
  {}

  lemma PutLow1Get1(v: Word, w: Word)
    ensures PutLow1(v, Across(v, w)) == v
  {}

  lemma PutHigh1Get1(v: Word, w: Word)
    ensures PutHigh1(w, Across(v, w)) == w
  {}

  lemma PutHigh2High2(w: Word)
    ensures PutHigh2(w, High2(w)) == w
  {}

  /** Putting back what was got changes nothing. */
  lemma SetGet(b: Bundle, k: SlotIndex)
    ensures Set(b, k, Get(b, k)) == b
  {
    hide Across, Low0, High2, TemplateBits, PutLow0, PutLow1, PutHigh1, PutHigh2;
    PutLow0Low0(b.wide0);
    PutLow1Get1(b.wide0, b.wide1);
    PutHigh1Get1(b.wide0, b.wide1);
    PutHigh2High2(b.wide1);
  }

  lemma GetIsInstruction(b: Bundle, k: SlotIndex)
    ensures Get(b, k) <= INSTRUCTION
  {}

  // -------------------------------------------------------------- brl and movl gp

  /** brl with an L-unit in slot 1: a template of 4 or 5 and an opcode of 0xc or 0xd. */
  predicate IsBrl(b: Bundle) { BrlTemplate(b.wide0) && BrlOpcode(b.wide1) }

  predicate BrlTemplate(w: Word) { w & 0x1e == 4 }

  predicate BrlOpcode(w: Word) { w & 0xe000_0000_0000_0000 == 0xc000_0000_0000_0000 }

  function BrlImmOf(v: Word, w: Word): Word {
    ((w & 0x00ff_fff0_0000_0000) >> 32) | ((v & 0xffff_0000_0000_0000) >> 24)
    | ((w & 0x7f_ffff) << 40) | ((w & 0x0800_0000_0000_0000) << 4)
  }

  function BrlLow(v: Word, imm: Word): Word { (v & 0x0000_ffff_ffff_ffff) | ((imm & 0xff_ff00_0000) << 24) }

  function BrlHigh(w: Word, imm: Word): Word {
    (w & 0xf700_000f_ff80_0000) | ((imm & 0xff_fff0) << 32) | ((imm & 0x7fff_ff00_0000_0000) >> 40)
    | ((imm & 0x8000_0000_0000_0000) >> 4)
  }

  function GetBrlImm(b: Bundle): Word { BrlImmOf(b.wide0, b.wide1) }

  function SetBrlImm(b: Bundle, imm: Word): Bundle { Bundle(BrlLow(b.wide0, imm), BrlHigh(b.wide1, imm)) }

  /** brl.sptk.few to itself. */
  const BRL := Bundle(0x1_0000_0005, 0xc000_0008_0000_0000)

  lemma BrlImmOfParts(v: Word, w: Word, imm: Word)
    requires Aligned(imm)
    ensures BrlImmOf(BrlLow(v, imm), BrlHigh(w, imm)) == imm
  {}

  lemma BrlLowOfImm(v: Word, w: Word)
    ensures BrlLow(v, BrlImmOf(v, w)) == v
  {}

  lemma BrlHighOfImm(v: Word, w: Word)
    ensures BrlHigh(w, BrlImmOf(v, w)) == w
  {}

  lemma BrlImmOfIsAligned(v: Word, w: Word)
    ensures Aligned(BrlImmOf(v, w))
  {}

  /** On the multiples of 16, SetBrlImm and GetBrlImm are inverse; GetBrlImm gives no other value. */
  lemma BrlImmInverse(b: Bundle, imm: Word)
    ensures Aligned(imm) <==> GetBrlImm(SetBrlImm(b, imm)) == imm
    ensures SetBrlImm(b, GetBrlImm(b)) == b
  {
    if Aligned(imm) { BrlImmOfParts(b.wide0, b.wide1, imm); }
    BrlImmOfIsAligned(BrlLow(b.wide0, imm), BrlHigh(b.wide1, imm));
    BrlLowOfImm(b.wide0, b.wide1);
    BrlHighOfImm(b.wide0, b.wide1);
    hide BrlImmOf, BrlLow, BrlHigh, Aligned;
  }

  lemma Low0BrlLow(v: Word, imm: Word)
    ensures Low0(BrlLow(v, imm)) == Low0(v)
  {}

  lemma TemplateBrlLow(v: Word, imm: Word)
    ensures TemplateBits(BrlLow(v, imm)) == TemplateBits(v)
  {}

  lemma BrlTemplateBrlLow(v: Word, imm: Word)
    ensures BrlTemplate(BrlLow(v, imm)) == BrlTemplate(v)
  {}

  lemma BrlOpcodeBrlHigh(w: Word, imm: Word)
    ensures BrlOpcode(BrlHigh(w, imm)) == BrlOpcode(w)
  {}

  /** The template, slot 0 and being a brl do not depend on the immediate. */
  lemma SetBrlImmKeeps(b: Bundle, imm: Word)
    ensures Template(SetBrlImm(b, imm)) == Template(b) && Get(SetBrlImm(b, imm), 0) == Get(b, 0)
    ensures IsBrl(SetBrlImm(b, imm)) == IsBrl(b)
  {
    hide TemplateBits, Low0, BrlTemplate, BrlOpcode, BrlLow, BrlHigh;
    Low0BrlLow(b.wide0, imm);
    TemplateBrlLow(b.wide0, imm);
    BrlTemplateBrlLow(b.wide0, imm);
    BrlOpcodeBrlHigh(b.wide1, imm);
  }

  lemma BrlTemplatePutLow0(w: Word, x: Word)
    ensures BrlTemplate(PutLow0(w, x)) == BrlTemplate(w)
  {}

  lemma BrlImmOfPutLow0(v: Word, w: Word, x: Word)
    ensures BrlImmOf(PutLow0(v, x), w) == BrlImmOf(v, w)
  {}

  lemma BrlLowAgain(v: Word, x: Word, y: Word)
    ensures BrlLow(BrlLow(v, x), y) == BrlLow(v, y)
  {}

  lemma BrlHighAgain(w: Word, x: Word, y: Word)
    ensures BrlHigh(BrlHigh(w, x), y) == BrlHigh(w, y)
  {}

  /** Setting slot 0 leaves a brl and its immediate. */
  lemma Set0KeepsBrl(b: Bundle, x: Word)
    ensures IsBrl(Set(b, 0, x)) == IsBrl(b) && GetBrlImm(Set(b, 0, x)) == GetBrlImm(b)
  {
    hide BrlTemplate, BrlOpcode, BrlImmOf, PutLow0;
    BrlTemplatePutLow0(b.wide0, x);
    BrlImmOfPutLow0(b.wide0, b.wide1, x);
  }

  lemma SetBrlImmAgain(b: Bundle, x: Word, y: Word)
    ensures SetBrlImm(SetBrlImm(b, x), y) == SetBrlImm(b, y)
  {
    hide BrlLow, BrlHigh;
    BrlLowAgain(b.wide0, x, y);
    BrlHighAgain(b.wide1, x, y);
  }

  lemma BrlUnits(b: Bundle)
    requires IsBrl(b)
    ensures UnitOf(Template(b), 0) == M_UNIT && UnitOf(Template(b), 1) == L_UNIT && UnitOf(Template(b), 2) == X_UNIT
  {
    MlxTemplate(b.wide0);
  }

  lemma MlxTemplate(w: Word)
    requires BrlTemplate(w)
    ensures TemplateBits(w) & 0x1e == 4
  {}

  lemma BrlIsBrl()
    ensures IsBrl(BRL)
  {}

  lemma BrlImmIsParts(v: Word, w: Word)
    ensures BrlImmOf(v, w) == ((((High2(w) >> 36) & 1) << 59) | (((Across(v, w) >> 2) & 0x7f_ffff_ffff) << 20)
                               | ((High2(w) >> 13) & 0xf_ffff)) << 4
  {}

  lemma BrlTemplateIs(w: Word)
    ensures BrlTemplate(w) <==> Letters(TemplateBits(w)) == "MLX"
  {}

  lemma BrlOpcodeIs(w: Word)
    ensures BrlOpcode(w) <==> High2(w) >> 37 == 0xc || High2(w) >> 37 == 0xd
  {}

  /** A brl is brl.cond or brl.call, the formats X3 and X4, with its immediate in slots 1 and 2. */
  lemma BrlIs(b: Bundle)
    ensures IsBrl(b) <==> Letters(Template(b)) == "MLX" && (Get(b, 2) >> 37 == 0xc || Get(b, 2) >> 37 == 0xd)
    ensures GetBrlImm(b) == ((((Get(b, 2) >> 36) & 1) << 59) | (((Get(b, 1) >> 2) & 0x7f_ffff_ffff) << 20)
                             | ((Get(b, 2) >> 13) & 0xf_ffff)) << 4
  {
    hide BrlTemplate, BrlOpcode, BrlImmOf, Across, High2, TemplateBits, Letters;
    BrlTemplateIs(b.wide0);
    BrlOpcodeIs(b.wide1);
    BrlImmIsParts(b.wide0, b.wide1);
  }

  function GetMovlGp(v: Word, w: Word): Word {
    ((w & 0x7f0_0000_0000) >> 36) | ((w & 0x07fc_0000_0000_0000) >> 43) | ((w & 0x3_e000_0000_0000) >> 29)
    | ((w & 0x1000_0000_0000) >> 23) | ((v & 0xffff_c000_0000_0000) >> 24) | ((w & 0x7f_ffff) << 40)
    | ((w & 0x0800_0000_0000_0000) << 4)
  }

  function MovlGpLow(gp: Word): Word { 0x1_0000_0005 | ((gp & 0xff_ffc0_0000) << 24) }

  function MovlGpHigh(gp: Word): Word {
    0x6000_0000_2000_0000 | ((gp & 0x70) << 36) | ((gp & 0xff80) << 43) | ((gp & 0x1f_0000) << 29)
    | ((gp & 0x20_0000) << 23) | ((gp & 0x7fff_ff00_0000_0000) >> 40) | ((gp & 0x8000_0000_0000_0000) >> 4)
  }

  predicate IsMovlGp(v: Word, w: Word) {
    v & 0x3fff_ffff_fffe == 0x1_0000_0004 && w & 0xf000_080f_ff80_0000 == 0x6000_0000_2000_0000
  }

  /** movl gp keeps the multiples of 16 and drops the low bits of every other value. */
  lemma MovlGpRoundTrip(gp: Word)
    ensures GetMovlGp(MovlGpLow(gp), MovlGpHigh(gp)) == gp & 0xffff_ffff_ffff_fff0
  {}

  lemma MovlGpIsMovlGp(gp: Word)
    ensures IsMovlGp(MovlGpLow(gp), MovlGpHigh(gp))
  {}

  // --------------------------------------------------------- IP-relative instructions

  datatype Form = NOT_RELATIVE | IMM13_7 | IMM20A | IMM20B

  function Opcode(i: Word): Word { (i >> 37) & 0xf }
  function X(i: Word): Word { (i >> 33) & 1 }
  function X3(i: Word): Word { (i >> 33) & 7 }
  function X6(i: Word): Word { (i >> 27) & 0x3f }

  /** Which of the relocated IP-relative forms an instruction has, by its unit. */
  function FormOf(unit: Unit, i: Word): Form {
    match unit
    case F_UNIT => if Opcode(i) == 0 && X(i) == 0 && X6(i) == 8 then IMM20A else NOT_RELATIVE
    case M_UNIT =>
      if Opcode(i) == 1 && (X3(i) == 1 || X3(i) == 3) then IMM13_7
      else if Opcode(i) == 0 && (X3(i) == 4 || X3(i) == 5 || X3(i) == 6 || X3(i) == 7) then IMM20B
      else NOT_RELATIVE
    case I_UNIT => if Opcode(i) == 0 && X3(i) == 1 then IMM13_7 else NOT_RELATIVE
    case B_UNIT => if Opcode(i) == 4 || Opcode(i) == 5 then IMM20B else NOT_RELATIVE
    case _ => NOT_RELATIVE
  }

  /** The IP-relative formats of the manual: M20 and M21 are chk.s, M22 and M23 chk.a, I20 is chk.s.i, F14
    * fchkf, B1 to B3 br.cond, the counted loops and br.call.
    */
  function Format(letter: char, i: Word): Form {
    if letter == 'M' then
      if i & 0x1ee_0000_0000 == 0x22_0000_0000 || i & 0x1ee_0000_0000 == 0x26_0000_0000 then IMM13_7
      else if i & 0x1e8_0000_0000 == 0x8_0000_0000 then IMM20B
      else NOT_RELATIVE
    else if letter == 'I' then if i & 0x1ee_0000_0000 == 0x2_0000_0000 then IMM13_7 else NOT_RELATIVE
    else if letter == 'F' then if i & 0x1e3_f800_0000 == 0x4000_0000 then IMM20A else NOT_RELATIVE
    else if letter == 'B' then if i & 0x1c0_0000_0000 == 0x80_0000_0000 then IMM20B else NOT_RELATIVE
    else NOT_RELATIVE
  }

  lemma FormsAre(unit: Unit, i: Word)
    ensures FormOf(unit, i) == Format(LetterOf(unit), i)
  {}

  function Sign(i: Word): Word { (i >> 36) & 1 }
  function Imm7a(i: Word): Word { (i >> 6) & 0x7f }
  function Imm13c(i: Word): Word { (i >> 20) & 0x1fff }
  function Imm20a(i: Word): Word { (i >> 6) & 0xf_ffff }
  function Imm20b(i: Word): Word { (i >> 13) & 0xf_ffff }
  function WithSign(i: Word, x: Word): Word { (i & 0xffff_ffef_ffff_ffff) | ((x << 36) & 0x10_0000_0000) }
  function WithImm7a(i: Word, x: Word): Word { (i & 0xffff_ffff_ffff_e03f) | ((x << 6) & 0x1fc0) }
  function WithImm13c(i: Word, x: Word): Word { (i & 0xffff_fffe_000f_ffff) | ((x << 20) & 0x1_fff0_0000) }
  function WithImm20a(i: Word, x: Word): Word { (i & 0xffff_ffff_fc00_003f) | ((x << 6) & 0x3ff_ffc0) }
  function WithImm20b(i: Word, x: Word): Word { (i & 0xffff_fffe_0000_1fff) | ((x << 13) & 0x1_ffff_e000) }

  function SignExtend21(x: Word): Word { if x & 0x10_0000 == 0 then x else x | 0xffff_ffff_ffe0_0000 }

  /** The displacement of an instruction of a form, in bytes. */
  function Offset13_7(i: Word): Word { SignExtend21((Sign(i) << 20) | (Imm13c(i) << 7) | Imm7a(i)) << 4 }
  function Offset20a(i: Word): Word { SignExtend21((Sign(i) << 20) | Imm20a(i)) << 4 }
  function Offset20b(i: Word): Word { SignExtend21((Sign(i) << 20) | Imm20b(i)) << 4 }

  function To13_7(i: Word, delta: Word, s: Word): Word { WithSign(WithImm13c(WithImm7a(i, delta >> 4), delta >> 11), s) }
  function To20a(i: Word, delta: Word, s: Word): Word { WithSign(WithImm20a(i, delta >> 4), s) }
  function To20b(i: Word, delta: Word, s: Word): Word { WithSign(WithImm20b(i, delta >> 4), s) }

  /** 0 <= delta < 2^24, and -2^24 <= delta < 0. */
  predicate IsForward(delta: Word) { delta < 0x100_0000 }
  predicate IsBack(delta: Word) { delta >= 0xffff_ffff_ff00_0000 }

  lemma Reach13_7Forward(i: Word, delta: Word)
    requires Aligned(delta)
    ensures Offset13_7(To13_7(i, delta, 0)) == delta <==> IsForward(delta)
  {}

  lemma Reach13_7Back(i: Word, delta: Word)
    requires Aligned(delta)
    ensures Offset13_7(To13_7(i, delta, 1)) == delta <==> IsBack(delta)
  {}

  lemma Reach20aForward(i: Word, delta: Word)
    requires Aligned(delta)
    ensures Offset20a(To20a(i, delta, 0)) == delta <==> IsForward(delta)
  {}

  lemma Reach20aBack(i: Word, delta: Word)
    requires Aligned(delta)
    ensures Offset20a(To20a(i, delta, 1)) == delta <==> IsBack(delta)
  {}

  lemma Reach20bForward(i: Word, delta: Word)
    requires Aligned(delta)
    ensures Offset20b(To20b(i, delta, 0)) == delta <==> IsForward(delta)
  {}

  lemma Reach20bBack(i: Word, delta: Word)
    requires Aligned(delta)
    ensures Offset20b(To20b(i, delta, 1)) == delta <==> IsBack(delta)
  {}
}
