/** The ARM64 patch written over a detoured function (detours/src/detours.cpp:970-1007). */
module Arm64Patch {
  import opened Arm64
  import opened Arm64Encoding
  import opened Arm64Copy
  import opened Arm64Meaning
  import opened Arm64Bits
  import opened Arm64Relocation
  import opened Arm64Trampoline
  import opened Arm64TrampolineRuns

  /** ADRP X17 with the page distance spread over immlo and immhi. */
  function IndirectAdrp(value: bv64): Word {
    17 | (((value >> 14) & 0x7ffff) as bv32 << 5) | (0x10 << 24) | (((value >> 12) & 3) as bv32 << 29) | (1 << 31)
  }

  /** LDR X17, [X17, imm]. */
  function IndirectLdr(jmpVal: Addr): Word {
    17 | (17 << 5) | (((jmpVal & 0xfff) / 8) as bv32 << 10) | (1 << 22) | (1 << 24) | (7 << 27) | (3 << 30)
  }

  const INDIRECT_BR: Word := 0xd61f_0220

  /** The three words of `detour_gen_jmp_indirect` at `code`, jumping through the pointer at `jmpVal`. */
  function JmpIndirect(code: Addr, jmpVal: Addr): seq<Word> {
    [IndirectAdrp(Distance(PageOf(code), PageOf(jmpVal))), IndirectLdr(jmpVal), INDIRECT_BR]
  }

  lemma IndirectAdrpDecodes(deltaPage: bv64)
    requires InRange(deltaPage, 0x10_0000)
    ensures Decode(IndirectAdrp(PageBase(deltaPage))) == Adrp(X17, PageBase(deltaPage))
  {
    hide Decode, InRange, PageBase;
    IndirectIsAdrp(deltaPage);
    AdrDecodes(X17, deltaPage);
  }

  lemma IndirectIsAdrp(deltaPage: bv64)
    ensures IndirectAdrp(PageBase(deltaPage)) == AssembleAdr19(1, X17, Low32(deltaPage))
  {}

  lemma IndirectLdrDecodes(jmpVal: Addr)
    requires jmpVal & 7 == 0
    ensures Decode(IndirectLdr(jmpVal)) == LdrXBase(X17, X17, jmpVal & 0xfff)
  {}

  lemma IndirectBrDecodes()
    ensures Decode(INDIRECT_BR) == Br(false, X17)
  {}

  lemma PageAndLow(a: Addr)
    ensures Plus(PageOf(a), a & 0xfff) == a
  {}

  lemma PageDistanceIs(code: Addr, jmpVal: Addr)
    ensures Distance(PageOf(code), PageOf(jmpVal)) == PageBase(PageDelta(jmpVal, code))
  {
    hide Plus, Distance, PageOf, PageBase, PageNumber;
    PageBaseDistance(PageNumber(code), PageNumber(jmpVal));
    PageRounds(code);
    PageRounds(jmpVal);
  }

  lemma PatchDecodes(code: Addr, jmpVal: Addr)
    requires InRange(PageDelta(jmpVal, code), 0x10_0000) && jmpVal & 7 == 0
    ensures var ws := JmpIndirect(code, jmpVal);
            && Decode(ws[0]) == Adrp(X17, PageBase(PageDelta(jmpVal, code)))
            && Decode(ws[1]) == LdrXBase(X17, X17, jmpVal & 0xfff)
            && Decode(ws[2]) == Br(false, X17)
  {
    hide Decode, InRange, PageDelta, PageBase, Distance, PageOf, IndirectAdrp, IndirectLdr;
    PageDistanceIs(code, jmpVal);
    IndirectAdrpDecodes(PageDelta(jmpVal, code));
    IndirectLdrDecodes(jmpVal);
    IndirectBrDecodes();
  }

  /** Entering the patched function goes to whatever the pointer holds, touching only x17. */
  lemma PatchRuns(other: OtherSemantics, code: Addr, jmpVal: Addr, c: Core)
    requires InRange(PageDelta(jmpVal, code), 0x10_0000) && jmpVal & 7 == 0
    requires CodeAt(c.mem, code, JmpIndirect(code, jmpVal))
    ensures var d := Load64(c.mem, jmpVal); Run(other, State(code, c), 3) == State(d, SetX(c, X17, d))
  {
    hide Decode, InRange, PageDelta, PageBase, PageOf, Plus, Load32, Load64, CodeAt, Step, JmpIndirect, SetX;
    var ws, d := JmpIndirect(code, jmpVal), Load64(c.mem, jmpVal);
    PatchShape(code, jmpVal);
    PatchDecodes(code, jmpVal);
    PageDeltaShifted(code, jmpVal);
    PageAndLow(jmpVal);
    StepAt(other, ws, code, c);
    var c1 := SetX(c, X17, PageOf(jmpVal));
    X17Holds(c, PageOf(jmpVal));
    X17Holds(c, d);
    StepAt(other, [ws[1], ws[2]], Plus(code, 4), c1);
    SetXTwice(c, X17, PageOf(jmpVal), d);
    var c2 := SetX(c, X17, d);
    assert [ws[1], ws[2]][1..] == [ws[2]];
    SetXTwice(c, X17, d, d);
    StepAt(other, [ws[2]], Plus(Plus(code, 4), 4), c2);
    RunThree(other, State(code, c));
  }

  lemma X17Holds(c: Core, v: bv64)
    ensures SetX(c, X17, v).mem == c.mem && GetX(SetX(c, X17, v), X17) == v
  {}

  lemma PatchShape(code: Addr, jmpVal: Addr)
    ensures |JmpIndirect(code, jmpVal)| == 3
    ensures JmpIndirect(code, jmpVal)[1..] == [JmpIndirect(code, jmpVal)[1], JmpIndirect(code, jmpVal)[2]]
  {}

  lemma RunThree(other: OtherSemantics, s: State)
    ensures Run(other, s, 3) == Step(other, Step(other, Step(other, s)))
  {
    hide Step;
    assert Run(other, s, 3) == Run(other, Step(other, s), 2);
    RunTwo(other, Step(other, s));
  }
}
