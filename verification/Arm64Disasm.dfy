/** The ARM64 `CDetourDis` itself (detours/src/disasm.cpp:3911-4289): routines that write words
  * through a destination pointer and record the branch target. The destination is an array of words
  * whose element 0 would be at address `base`; a pointer into it is an index.
  */
module Arm64Disasm {
  import opened Arm64
  import opened Arm64Encoding
  import opened Arm64Copy
  import opened Arm64Meaning
  import opened Arm64Relocation
  import opened DisasmBuffer

  const DETOUR_INSTRUCTION_TARGET_NONE: Addr := 0

  function PieceNumber(p: nat): bv2
    requires p < 4
  {
    if p == 3 then 3 else if p == 2 then 2 else if p == 1 then 1 else 0
  }

  function WordsOfPiece(rd: Reg, imm: bv64, def: bv32, p: nat): seq<Word>
    requires p < 4
  {
    PieceWords(rd, Piece(imm, p), def, PieceNumber(p), FirstAt(imm, def, p))
  }

  /** The words emitted once pieces 3 down to `p` have been handled. */
  function PiecesDownTo(rd: Reg, imm: bv64, def: bv32, p: nat): seq<Word>
    requires p <= 4
    decreases 4 - p
  {
    if p == 4 then [] else PiecesDownTo(rd, imm, def, p + 1) + WordsOfPiece(rd, imm, def, p)
  }

  lemma PiecesAll(rd: Reg, imm: bv64, def: bv32)
    ensures PiecesDownTo(rd, imm, def, 0) == MovPieces(rd, imm, def)
  {
    hide WordsOfPiece, MovPieces;
    FourWords(rd, imm, def);
    var w3, w2, w1, w0 := WordsOfPiece(rd, imm, def, 3), WordsOfPiece(rd, imm, def, 2), WordsOfPiece(rd, imm, def, 1),
        WordsOfPiece(rd, imm, def, 0);
    PiecesStep(rd, imm, def, 3);
    PiecesStep(rd, imm, def, 2);
    PiecesStep(rd, imm, def, 1);
    PiecesStep(rd, imm, def, 0);
    NoPieces(rd, imm, def);
    Reassociate(w3, w2, w1, w0);
  }

  lemma Reassociate(w3: seq<Word>, w2: seq<Word>, w1: seq<Word>, w0: seq<Word>)
    ensures [] + w3 + w2 + w1 + w0 == w3 + (w2 + (w1 + w0))
  {}

  lemma PiecesStep(rd: Reg, imm: bv64, def: bv32, p: nat)
    requires p < 4
    ensures PiecesDownTo(rd, imm, def, p) == PiecesDownTo(rd, imm, def, p + 1) + WordsOfPiece(rd, imm, def, p)
  {
    hide WordsOfPiece;
  }

  lemma NoPieces(rd: Reg, imm: bv64, def: bv32)
    ensures PiecesDownTo(rd, imm, def, 4) == []
  {}

  lemma {:induction false} PiecesGrow(rd: Reg, imm: bv64, def: bv32, p: nat)
    requires p <= 4
    ensures |PiecesDownTo(rd, imm, def, p)| <= |PiecesDownTo(rd, imm, def, 0)|
  {
    hide WordsOfPiece, PiecesDownTo;
    if p > 0 {
      PiecesStep(rd, imm, def, p - 1);
      PiecesGrow(rd, imm, def, p - 1);
    }
  }

  lemma FourWords(rd: Reg, imm: bv64, def: bv32)
    ensures MovPieces(rd, imm, def) == WordsOfPiece(rd, imm, def, 3) + (WordsOfPiece(rd, imm, def, 2)
            + (WordsOfPiece(rd, imm, def, 1) + WordsOfPiece(rd, imm, def, 0)))
  {
    hide PieceWords, Piece;
  }

  lemma FirstStarts(imm: bv64, def: bv32)
    ensures FirstAt(imm, def, 3)
  {}

  lemma FirstStep(imm: bv64, def: bv32, p: nat)
    requires 1 <= p < 4
    ensures FirstAt(imm, def, p - 1) <==>
            FirstAt(imm, def, p) && !EmitsPiece(Piece(imm, p), def, false, FirstAt(imm, def, p))
  {
    hide Piece;
  }

  lemma LastPiece(p: nat)
    requires p < 4
    ensures PieceNumber(p) == 0 <==> p == 0
  {}

  class CDetourDis {
    var m_pbTarget: Addr

    constructor ()
      ensures m_pbTarget == DETOUR_INSTRUCTION_TARGET_NONE
    {
      m_pbTarget := DETOUR_INSTRUCTION_TARGET_NONE;
    }

    method EmitInstruction(rbCode: array<Word>, at: nat, instruction: Word) returns (next: nat, size: nat)
      requires at < rbCode.Length
      modifies rbCode
      ensures rbCode[..] == Written(old(rbCode[..]), at, [instruction])
      ensures next == at + 1 && size == 4
    {
      rbCode[at] := instruction;
      next, size := at + 1, 4;
    }

    /** One turn of the loop over the pieces. */
    method EmitPiece(rbCode: array<Word>, at: nat, rd: Reg, curPiece: bv32, defaultPiece: bv32, pieceNum: bv2, first: bool)
      returns (next: nat, stillFirst: bool)
      requires at + |PieceWords(rd, curPiece, defaultPiece, pieceNum, first)| <= rbCode.Length
      modifies rbCode
      ensures rbCode[..] == Written(old(rbCode[..]), at, PieceWords(rd, curPiece, defaultPiece, pieceNum, first))
      ensures next == at + |PieceWords(rd, curPiece, defaultPiece, pieceNum, first)|
      ensures stillFirst == (first && !EmitsPiece(curPiece, defaultPiece, pieceNum == 0, first))
    {
      hide AssembleMov16;
      next, stillFirst := at, first;
      if curPiece != defaultPiece || (pieceNum == 0 && first) {
        var size;
        if first {
          if defaultPiece == 0xffff {
            next, size := EmitInstruction(rbCode, next, AssembleMov16(1, 0, rd, curPiece ^ 0xffff, pieceNum as bv32));
          } else {
            next, size := EmitInstruction(rbCode, next, AssembleMov16(1, 2, rd, curPiece, pieceNum as bv32));
          }
          stillFirst := false;
        } else {
          next, size := EmitInstruction(rbCode, next, AssembleMov16(1, 3, rd, curPiece, pieceNum as bv32));
        }
      }
    }

    method EmitPieces(rbCode: array<Word>, at: nat, rd: Reg, immediate: bv64, defaultPiece: bv32) returns (next: nat)
      requires at + |MovPieces(rd, immediate, defaultPiece)| <= rbCode.Length
      modifies rbCode
      ensures rbCode[..] == Written(old(rbCode[..]), at, MovPieces(rd, immediate, defaultPiece))
      ensures next == at + |MovPieces(rd, immediate, defaultPiece)|
    {
      hide MovPieces, Piece, PiecesDownTo, FirstAt, PieceNumber, PieceWords, EmitsPiece;
      ghost var before := rbCode[..];
      next := at;
      var first := true;
      PiecesAll(rd, immediate, defaultPiece);
      NoPieces(rd, immediate, defaultPiece);
      FirstStarts(immediate, defaultPiece);
      for p := 4 downto 0
        invariant p > 0 ==> first == FirstAt(immediate, defaultPiece, p - 1)
        invariant next == at + |PiecesDownTo(rd, immediate, defaultPiece, p)|
        invariant |PiecesDownTo(rd, immediate, defaultPiece, p)| <= |MovPieces(rd, immediate, defaultPiece)|
        invariant rbCode[..] == Written(before, at, PiecesDownTo(rd, immediate, defaultPiece, p))
      {
        PiecesStep(rd, immediate, defaultPiece, p);
        PiecesGrow(rd, immediate, defaultPiece, p);
        LastPiece(p);
        if p > 0 { FirstStep(immediate, defaultPiece, p); }
        WrittenTwice(before, at, PiecesDownTo(rd, immediate, defaultPiece, p + 1), WordsOfPiece(rd, immediate, defaultPiece, p));
        next, first := EmitPiece(rbCode, next, rd, Piece(immediate, p), defaultPiece, PieceNumber(p), first);
      }
    }

    method EmitMovImmediate(rbCode: array<Word>, at: nat, rd: Reg, immediate: bv64) returns (next: nat, size: nat)
      requires at + |MovImmediate(rd, immediate)| <= rbCode.Length
      modifies rbCode
      ensures rbCode[..] == Written(old(rbCode[..]), at, MovImmediate(rd, immediate))
      ensures next == at + |MovImmediate(rd, immediate)| && size == 4 * |MovImmediate(rd, immediate)|
    {
      hide MovPieces, AssembleMov16, Piece, CountPieces, Written;
      // special case: MOVN with 32-bit dest
      if Piece(immediate, 3) == 0 && Piece(immediate, 2) == 0 && Piece(immediate, 1) == 0xffff {
        next, size := EmitInstruction(rbCode, at, AssembleMov16(0, 0, rd, Piece(immediate, 0) ^ 0xffff, 0));
      } else {
        // MOVN/MOVZ with 64-bit dest
        next := EmitPieces(rbCode, at, rd, immediate, DefaultPiece(immediate));
        size := 4 * (next - at);
      }
    }

    method CopyAdr(rbCode: array<Word>, at: nat, pSource: Addr, pDest: Addr, instruction: Word) returns (size: nat)
      requires at + |Arm64Copy.CopyAdr(pSource, pDest, instruction)| <= rbCode.Length
      modifies rbCode
      ensures rbCode[..] == Written(old(rbCode[..]), at, Arm64Copy.CopyAdr(pSource, pDest, instruction))
      ensures size == 4 * |Arm64Copy.CopyAdr(pSource, pDest, instruction)|
    {
      hide AssembleAdr19, AssembleAddImm12, MovImmediate, InRange, Distance, PageDelta, AdrTarget, AdrpTarget, Low32,
           Low12, Rd, Written;
      ghost var before := rbCode[..];
      var next, cb := at, 0;
      if instruction & 0x8000_0000 == 0 {
        // ADR case
        var target := AdrTarget(pSource, instruction);
        var delta := Distance(pDest, target);
        var deltaPage := PageDelta(target, pDest);
        if InRange(delta, 0x10_0000) {
          next, cb := EmitInstruction(rbCode, next, AssembleAdr19(0, Rd(instruction), Low32(delta)));
        } else if InRange(deltaPage, 0x10_0000) {
          var adrp := AssembleAdr19(1, Rd(instruction), Low32(deltaPage));
          var add := AssembleAddImm12(0, Rd(instruction), Rd(instruction), Low12(target), 0);
          next, cb := EmitInstruction(rbCode, next, adrp);
          next, cb := EmitInstruction(rbCode, next, add);
          assert [adrp] + [add] == [adrp, add];
          WrittenTwice(before, at, [adrp], [add]);
        } else {
          next, cb := EmitMovImmediate(rbCode, next, Rd(instruction), target);
        }
      } else {
        // ADRP case
        var target := AdrpTarget(pSource, instruction);
        var deltaPage := PageDelta(target, pDest);
        if InRange(deltaPage, 0x10_0000) {
          next, cb := EmitInstruction(rbCode, next, AssembleAdr19(1, Rd(instruction), Low32(deltaPage)));
        } else {
          next, cb := EmitMovImmediate(rbCode, next, Rd(instruction), target);
        }
      }
      size := 4 * (next - at);
    }

    /** The shared tail of `CopyBcc`, `CopyCbz` and `CopyTbz`, which differ in how the condition is
      * encoded and how far it reaches. */
    method EmitConditional(rbCode: array<Word>, at: nat, cond: (bool, bv32) -> Word, near: bv64, pTarget: Addr, pDest: Addr)
      returns (size: nat)
      requires at + |CopyConditional(cond, near, pTarget, pDest)| <= rbCode.Length
      modifies rbCode
      ensures rbCode[..] == Written(old(rbCode[..]), at, CopyConditional(cond, near, pTarget, pDest))
      ensures size == 4 * |CopyConditional(cond, near, pTarget, pDest)|
    {
      hide AssembleBranch26, AssembleBr, MovImmediate, InRange, Distance, Plus, Low32, Written;
      ghost var before := rbCode[..];
      var delta := Distance(pDest, pTarget);
      var delta4 := Distance(Plus(pDest, 4), pTarget);
      var next, cb := at, 0;
      if InRange(delta, near) {
        next, cb := EmitInstruction(rbCode, next, cond(false, Low32(delta)));
      } else if InRange(delta4, 0x800_0000) {
        next, cb := EmitInstruction(rbCode, next, cond(true, 8));
        next, cb := EmitInstruction(rbCode, next, AssembleBranch26(false, Low32(delta4)));
        assert [cond(true, 8)] + [AssembleBranch26(false, Low32(delta4))] == CopyConditional(cond, near, pTarget, pDest);
        WrittenTwice(before, at, [cond(true, 8)], [AssembleBranch26(false, Low32(delta4))]);
      } else {
        ghost var mov := MovImmediate(X17, pTarget);
        next, cb := EmitMovImmediate(rbCode, next, X17, pTarget);
        next, cb := EmitInstruction(rbCode, next, cond(true, 8));
        WrittenTwice(before, at, mov, [cond(true, 8)]);
        next, cb := EmitInstruction(rbCode, next, AssembleBr(X17, false));
        assert mov + [cond(true, 8)] + [AssembleBr(X17, false)] == CopyConditional(cond, near, pTarget, pDest);
        WrittenTwice(before, at, mov + [cond(true, 8)], [AssembleBr(X17, false)]);
      }
      size := 4 * (next - at);
    }

    method CopyBcc(rbCode: array<Word>, at: nat, pSource: Addr, pDest: Addr, instruction: Word) returns (size: nat)
      requires at + |Arm64Copy.CopyBcc(pSource, pDest, instruction)| <= rbCode.Length
      modifies this, rbCode
      ensures rbCode[..] == Written(old(rbCode[..]), at, Arm64Copy.CopyBcc(pSource, pDest, instruction))
      ensures size == 4 * |Arm64Copy.CopyBcc(pSource, pDest, instruction)|
      ensures m_pbTarget == Target19(pSource, instruction)
    {
      hide Written, CopyConditional, InvertedBcc, Target19;
      var pTarget := Target19(pSource, instruction);
      m_pbTarget := pTarget;
      size := EmitConditional(rbCode, at, (inv, d) => InvertedBcc(instruction, inv, d), 0x10_0000, pTarget, pDest);
    }

    method CopyCbz(rbCode: array<Word>, at: nat, pSource: Addr, pDest: Addr, instruction: Word) returns (size: nat)
      requires at + |Arm64Copy.CopyCbz(pSource, pDest, instruction)| <= rbCode.Length
      modifies this, rbCode
      ensures rbCode[..] == Written(old(rbCode[..]), at, Arm64Copy.CopyCbz(pSource, pDest, instruction))
      ensures size == 4 * |Arm64Copy.CopyCbz(pSource, pDest, instruction)|
      ensures m_pbTarget == Target19(pSource, instruction)
    {
      hide Written, CopyConditional, InvertedCbz, Target19;
      var pTarget := Target19(pSource, instruction);
      m_pbTarget := pTarget;
      size := EmitConditional(rbCode, at, (inv, d) => InvertedCbz(instruction, inv, d), 0x10_0000, pTarget, pDest);
    }

    method CopyTbz(rbCode: array<Word>, at: nat, pSource: Addr, pDest: Addr, instruction: Word) returns (size: nat)
      requires at + |Arm64Copy.CopyTbz(pSource, pDest, instruction)| <= rbCode.Length
      modifies this, rbCode
      ensures rbCode[..] == Written(old(rbCode[..]), at, Arm64Copy.CopyTbz(pSource, pDest, instruction))
      ensures size == 4 * |Arm64Copy.CopyTbz(pSource, pDest, instruction)|
      ensures m_pbTarget == Target14(pSource, instruction)
    {
      hide Written, CopyConditional, InvertedTbz, Target14;
      var pTarget := Target14(pSource, instruction);
      m_pbTarget := pTarget;
      size := EmitConditional(rbCode, at, (inv, d) => InvertedTbz(instruction, inv, d), 0x2000, pTarget, pDest);
    }

    method CopyB_or_Bl(rbCode: array<Word>, at: nat, pSource: Addr, pDest: Addr, instruction: Word, link: bool)
      returns (size: nat)
      requires at + |CopyBorBl(pSource, pDest, instruction, link)| <= rbCode.Length
      modifies this, rbCode
      ensures rbCode[..] == Written(old(rbCode[..]), at, CopyBorBl(pSource, pDest, instruction, link))
      ensures size == 4 * |CopyBorBl(pSource, pDest, instruction, link)|
      ensures m_pbTarget == Target26(pSource, instruction)
    {
      hide AssembleBranch26, AssembleBr, MovImmediate, InRange, Distance, Low32, Target26, Written;
      ghost var before := rbCode[..];
      var pTarget := Target26(pSource, instruction);
      m_pbTarget := pTarget;
      var delta := Distance(pDest, pTarget);
      var next, cb := at, 0;
      if InRange(delta, 0x800_0000) {
        next, cb := EmitInstruction(rbCode, next, AssembleBranch26(link, Low32(delta)));
      } else {
        next, cb := EmitMovImmediate(rbCode, next, X17, pTarget);
        next, cb := EmitInstruction(rbCode, next, AssembleBr(X17, link));
        WrittenTwice(before, at, MovImmediate(X17, pTarget), [AssembleBr(X17, link)]);
      }
      size := 4 * (next - at);
    }

    method CopyLdrLiteral(rbCode: array<Word>, at: nat, pSource: Addr, pDest: Addr, instruction: Word, mem: Memory)
      returns (size: nat)
      requires at + |Arm64Copy.CopyLdrLiteral(pSource, pDest, instruction, mem)| <= rbCode.Length
      modifies rbCode
      ensures rbCode[..] == Written(old(rbCode[..]), at, Arm64Copy.CopyLdrLiteral(pSource, pDest, instruction, mem))
      ensures size == 4 * |Arm64Copy.CopyLdrLiteral(pSource, pDest, instruction, mem)|
    {
      hide AssembleLdrLit19, AssembleLdrFpNeonImm9, MovImmediate, InRange, Distance, Low32, Target19, LiteralValue, Rd, Written;
      ghost var before := rbCode[..];
      var pTarget := Target19(pSource, instruction);
      var delta := Distance(pDest, pTarget);
      var opc, fpNeon := instruction >> 30, (instruction >> 26) & 1;
      var next, cb := at, 0;
      if InRange(delta, 0x20_0000) {
        next, cb := EmitInstruction(rbCode, next, AssembleLdrLit19(opc, fpNeon, Rd(instruction), Low32(delta)));
      } else if fpNeon == 0 {
        next, cb := EmitMovImmediate(rbCode, next, Rd(instruction), LiteralValue(mem, opc, pTarget));
      } else {
        var ldr := AssembleLdrFpNeonImm9(2 + opc, Rd(instruction), X17, 0);
        next, cb := EmitMovImmediate(rbCode, next, X17, pTarget);
        next, cb := EmitInstruction(rbCode, next, ldr);
        WrittenTwice(before, at, MovImmediate(X17, pTarget), [ldr]);
      }
      size := 4 * (next - at);
    }

    /** Copies the instruction at `pSrc`, whose word is read from `mem`, to index `at` of `rbCode`,
      * which stands at address `pDst`. Returns the address after the source instruction, the branch
      * target and the number of bytes by which the copy is longer than the original. */
    method CopyInstruction(rbCode: array<Word>, at: nat, pDst: Addr, pSrc: Addr, mem: Memory)
      returns (pNext: Addr, pTarget: Addr, lExtra: nat)
      requires at + |CopyWords(pSrc, pDst, Load32(mem, pSrc), mem)| <= rbCode.Length
      modifies this, rbCode
      ensures rbCode[..] == Written(old(rbCode[..]), at, CopyWords(pSrc, pDst, Load32(mem, pSrc), mem))
      ensures pNext == Plus(pSrc, 4)
      ensures lExtra + 4 == 4 * |CopyWords(pSrc, pDst, Load32(mem, pSrc), mem)|
      ensures pTarget == m_pbTarget == BranchTarget(pSrc, Load32(mem, pSrc), old(m_pbTarget))
    {
      hide Arm64Copy.CopyAdr, Arm64Copy.CopyBcc, CopyBorBl, Arm64Copy.CopyCbz, Arm64Copy.CopyTbz,
           Arm64Copy.CopyLdrLiteral, IsPcRelAddress, IsBCond, IsBranchImm, IsCbz, IsTbz, IsLdrLiteral, Load32, Plus,
           Target19, Target26, Target14, Written;
      var instruction := Load32(mem, pSrc);
      CopyWordsLength(pSrc, pDst, instruction, mem);
      var copiedSize;
      if IsPcRelAddress(instruction) {
        copiedSize := CopyAdr(rbCode, at, pSrc, pDst, instruction);
      } else if IsBCond(instruction) {
        copiedSize := CopyBcc(rbCode, at, pSrc, pDst, instruction);
      } else if IsBranchImm(instruction) {
        copiedSize := CopyB_or_Bl(rbCode, at, pSrc, pDst, instruction, instruction & 0x8000_0000 != 0);
      } else if IsCbz(instruction) {
        copiedSize := CopyCbz(rbCode, at, pSrc, pDst, instruction);
      } else if IsTbz(instruction) {
        copiedSize := CopyTbz(rbCode, at, pSrc, pDst, instruction);
      } else if IsLdrLiteral(instruction) {
        copiedSize := CopyLdrLiteral(rbCode, at, pSrc, pDst, instruction, mem);
      } else {
        var next;
        next, copiedSize := EmitInstruction(rbCode, at, instruction);
      }
      pTarget := m_pbTarget;
      lExtra := copiedSize - 4;
      pNext := Plus(pSrc, 4);
    }
  }
}
