/** A whole ARM64 trampoline: what `DetourAttachEx` writes into `rbCode`
  * (detours/src/detours.cpp:2136-2315) and what running it does. */
module Arm64Trampoline {
  import opened Arm64
  import opened Arm64Encoding
  import opened Arm64Copy
  import opened Arm64Meaning
  import opened Arm64Bits
  import opened Arm64Relocation
  import opened Arm64Simulation

  // ------------------------------------------------------- The displaced code

  /** RET, or B: nothing after it is part of this straight line. */
  predicate EndsFunction(w: Word) { w & 0xffff_fc1f == 0xd65f_0000 || w & 0xfc00_0000 == 0x1400_0000 }

  /** NOP or zero padding. */
  predicate IsFiller(w: Word) { w == 0xd503_201f || w == 0 }

  /** The source words the copy loop takes from `src`, at most `left` of them. */
  function Displaced(mem: Memory, src: Addr, left: nat): (ds: seq<Word>)
    ensures |ds| <= left
    decreases left
  {
    if left == 0 then []
    else
      var w := Load32(mem, src);
      [w] + if EndsFunction(w) then [] else Displaced(mem, Plus(src, 4), left - 1)
  }

  predicate FillersFrom(mem: Memory, a: Addr, need: nat)
    decreases need
  {
    need == 0 || (IsFiller(Load32(mem, a)) && FillersFrom(mem, Plus(a, 4), need - 1))
  }

  /** The copied words, one expansion after another. */
  function CopyAll(ds: seq<Word>, src: Addr, dst: Addr, mem: Memory): seq<Word>
    decreases |ds|
  {
    if ds == [] then []
    else
      var ws := CopyWords(src, dst, ds[0], mem);
      ws + CopyAll(ds[1..], Plus(src, 4), End(dst, ws), mem)
  }

  // ------------------------------------------------------------ The final jump

  /** LDR X17, [PC + delta]. */
  function JumpLoad(delta: bv64): Word { 0x5800_0011 | ((Low32(delta) / 4) << 5) }

  const JUMP_BR: Word := 0xd61f_0000 | (17 << 5)

  lemma JumpLoadDecodes(delta: bv64)
    requires delta <= 120 && Aligned(delta)
    ensures Decode(JumpLoad(delta)) == LdrX(X17, delta)
  {}

  lemma JumpBrDecodes()
    ensures Decode(JUMP_BR) == Br(false, X17)
  {}

  /** `rbCode` is 128 bytes; the pool word sits in its last eight. */
  function PoolAddress(tramp: Addr): Addr { Plus(tramp, 120) }

  function JumpWords(tramp: Addr, at: Addr): seq<Word> { [JumpLoad(Distance(at, PoolAddress(tramp))), JUMP_BR] }

  // ------------------------------------------------- From words to the machine

  /** A word that is not one of the uninterpreted instructions, so cannot store. */
  predicate Quiet(w: Word) { !Decode(w).Other? }

  lemma QuietKeepsMemory(other: OtherSemantics, w: Word, pc: Addr, c: Core)
    requires Quiet(w)
    ensures Exec(other, Decode(w), pc, c).core.mem == c.mem
  {
    hide Decode, Plus, Load32, Load64, LoadV, MovWideValue, Width, ConditionHolds, IsZero, BitSet;
  }

  predicate QuietButLast(ws: seq<Word>) { forall k | 0 <= k < |ws| - 1 :: Quiet(ws[k]) }

  predicate AllQuiet(ws: seq<Word>) { forall k | 0 <= k < |ws| :: Quiet(ws[k]) }

  lemma StepAt(other: OtherSemantics, ws: seq<Word>, a: Addr, c: Core)
    requires ws != [] && CodeAt(c.mem, a, ws)
    ensures var o := Exec(other, Decode(ws[0]), a, c);
            Step(other, State(a, c)) == Continue(o, Plus(a, 4))
    ensures CodeAt(c.mem, Plus(a, 4), ws[1..])
  {
    hide Exec, Decode, Plus, Load32;
  }

  lemma ExecSeqUnfold(other: OtherSemantics, ws: seq<Word>, a: Addr, c: Core)
    requires ws != []
    ensures var o := Exec(other, Decode(ws[0]), a, c);
            ExecSeq(other, ws, a, c) == if o.Next? then ExecSeq(other, ws[1..], Plus(a, 4), o.core) else State(o.target, o.core)
  {
    hide Exec, Decode, Plus;
  }

  /** Words in memory run as the sequence does. */
  lemma {:induction false} SeqRuns(other: OtherSemantics, ws: seq<Word>, a: Addr, c: Core) returns (n: nat)
    requires CodeAt(c.mem, a, ws) && QuietButLast(ws)
    ensures Run(other, State(a, c), n) == ExecSeq(other, ws, a, c)
    decreases |ws|
  {
    hide Exec, Decode, Plus, Load32, Step, CodeAt, ExecSeq, Quiet;
    n := 0;
    if ws == [] {
      assert ExecSeq(other, ws, a, c) == State(a, c) by { ExecSeqEmpty(other, a, c); }
    } else {
      StepAt(other, ws, a, c);
      ExecSeqUnfold(other, ws, a, c);
      var o := Exec(other, Decode(ws[0]), a, c);
      if o.Goto? {
        n := 1;
        assert Run(other, State(a, c), 1) == Run(other, Step(other, State(a, c)), 0);
      } else if |ws| == 1 {
        n := 1;
        assert Run(other, State(a, c), 1) == Run(other, Step(other, State(a, c)), 0);
        assert ws[1..] == [];
        ExecSeqEmpty(other, Plus(a, 4), o.core);
      } else {
        QuietKeepsMemory(other, ws[0], a, c);
        assert forall k | 0 <= k < |ws[1..]| - 1 :: ws[1..][k] == ws[k + 1];
        var m := SeqRuns(other, ws[1..], Plus(a, 4), o.core);
        n := m + 1;
      }
    }
  }

  lemma ExecSeqEmpty(other: OtherSemantics, a: Addr, c: Core)
    ensures ExecSeq(other, [], a, c) == State(a, c)
  {}

  // -------------------------------------------------------- Emitted words are quiet

  lemma PieceWordsQuiet(rd: Reg, cur: bv32, def: bv32, hw: bv2, first: bool)
    requires cur <= 0xffff
    ensures AllQuiet(PieceWords(rd, cur, def, hw, first))
  {
    hide Decode, MovPiece;
    MovPieceDecodes(rd, cur, def, hw, first);
  }

  lemma AllQuietAppend(ws: seq<Word>, vs: seq<Word>)
    requires AllQuiet(ws) && AllQuiet(vs)
    ensures AllQuiet(ws + vs)
  {
    hide Quiet;
  }

  lemma QuietThenLast(ws: seq<Word>, last: Word)
    requires AllQuiet(ws)
    ensures QuietButLast(ws + [last])
  {
    hide Quiet;
  }

  lemma MovPiecesQuiet(rd: Reg, imm: bv64, def: bv32)
    ensures AllQuiet(MovPieces(rd, imm, def))
  {
    hide AllQuiet, PieceWords, Low32, FirstAt;
    MaskBound(Low32(imm >> 48));
    MaskBound(Low32(imm >> 32));
    MaskBound(Low32(imm >> 16));
    MaskBound(Low32(imm));
    var f2, f1, f0 := FirstAt(imm, def, 2), FirstAt(imm, def, 1), FirstAt(imm, def, 0);
    PieceWordsQuiet(rd, Piece(imm, 3), def, 3, true);
    PieceWordsQuiet(rd, Piece(imm, 2), def, 2, f2);
    PieceWordsQuiet(rd, Piece(imm, 1), def, 1, f1);
    PieceWordsQuiet(rd, Piece(imm, 0), def, 0, f0);
    var w3, w2 := PieceWords(rd, Piece(imm, 3), def, 3, true), PieceWords(rd, Piece(imm, 2), def, 2, f2);
    var w1, w0 := PieceWords(rd, Piece(imm, 1), def, 1, f1), PieceWords(rd, Piece(imm, 0), def, 0, f0);
    AllQuietAppend(w1, w0);
    AllQuietAppend(w2, w1 + w0);
    AllQuietAppend(w3, w2 + (w1 + w0));
  }

  lemma MovImmediateQuiet(rd: Reg, imm: bv64)
    ensures AllQuiet(MovImmediate(rd, imm))
  {
    hide Decode, Piece, AssembleMov16, MovPieces, CountPieces;
    MovPiecesQuiet(rd, imm, DefaultPiece(imm));
    PieceIsSmall(imm);
    MovDecodes(false, MovN, rd, Piece(imm, 0) ^ 0xffff, 0);
  }

  lemma AllQuietButLast(ws: seq<Word>)
    requires AllQuiet(ws)
    ensures QuietButLast(ws)
  {
    hide Quiet;
  }

  lemma ConditionalQuiet(i: Instr, cond: (bool, bv32) -> Word, near: bv64, target: Addr, dst: Addr)
    requires Conditional(i) && Decode(cond(true, 8)) == i
    ensures QuietButLast(CopyConditional(cond, near, target, dst))
  {
    hide Decode, MovImmediate, AssembleBr, AssembleBranch26, Low32, Distance, Plus, InRange;
    var mov := MovImmediate(X17, target);
    MovImmediateQuiet(X17, target);
    assert AllQuiet([cond(true, 8)]);
    AllQuietAppend(mov, [cond(true, 8)]);
    QuietThenLast(mov + [cond(true, 8)], AssembleBr(X17, false));
    assert mov + [cond(true, 8)] + [AssembleBr(X17, false)] == mov + [cond(true, 8), AssembleBr(X17, false)];
  }

  lemma AdrQuiet(src: Addr, dst: Addr, w: Word)
    ensures QuietButLast(CopyAdr(src, dst, w))
  {
    hide Decode, MovImmediate, AssembleAdr19, AssembleAddImm12, Low32, Low12, Distance, PageDelta, InRange, AdrTarget,
         AdrpTarget, Rd;
    MovImmediateQuiet(Rd(w), AdrTarget(src, w));
    MovImmediateQuiet(Rd(w), AdrpTarget(src, w));
    AllQuietButLast(MovImmediate(Rd(w), AdrTarget(src, w)));
    AllQuietButLast(MovImmediate(Rd(w), AdrpTarget(src, w)));
    if InRange(PageDelta(AdrTarget(src, w), dst), 0x10_0000) {
      AdrDecodes(Rd(w), PageDelta(AdrTarget(src, w), dst));
    }
  }

  lemma BranchQuiet(src: Addr, dst: Addr, w: Word, link: bool)
    ensures QuietButLast(CopyBorBl(src, dst, w, link))
  {
    hide Decode, MovImmediate, AssembleBr, AssembleBranch26, Low32, Distance, InRange, Target26;
    MovImmediateQuiet(X17, Target26(src, w));
    QuietThenLast(MovImmediate(X17, Target26(src, w)), AssembleBr(X17, link));
  }

  lemma LiteralQuiet(src: Addr, dst: Addr, w: Word, mem: Memory)
    ensures QuietButLast(CopyLdrLiteral(src, dst, w, mem))
  {
    hide Decode, MovImmediate, AssembleLdrLit19, AssembleLdrFpNeonImm9, Low32, Distance, InRange, Target19, LiteralValue, Rd;
    var target := Target19(src, w);
    MovImmediateQuiet(Rd(w), LiteralValue(mem, w >> 30, target));
    AllQuietButLast(MovImmediate(Rd(w), LiteralValue(mem, w >> 30, target)));
    MovImmediateQuiet(X17, target);
    QuietThenLast(MovImmediate(X17, target), AssembleLdrFpNeonImm9(2 + (w >> 30), Rd(w), X17, 0));
  }

  /** Only the last word of an expansion can be an uninterpreted instruction. */
  lemma CopyWordsQuiet(src: Addr, dst: Addr, w: Word, mem: Memory)
    ensures QuietButLast(CopyWords(src, dst, w, mem))
  {
    hide Decode, IsPcRelAddress, IsBCond, IsBranchImm, IsCbz, IsTbz, IsLdrLiteral, CopyAdr, CopyConditional, CopyBorBl,
         CopyLdrLiteral, QuietButLast, InvertedBcc, InvertedCbz, InvertedTbz, Target19, Target14;
    if IsPcRelAddress(w) {
      AdrQuiet(src, dst, w);
    } else if IsBCond(w) {
      BccInverted(w);
      ConditionalQuiet(Decode(InvertedBcc(w, true, 8)), (inv, d) => InvertedBcc(w, inv, d), 0x10_0000, Target19(src, w), dst);
    } else if IsBranchImm(w) {
      BranchQuiet(src, dst, w, w & 0x8000_0000 != 0);
    } else if IsCbz(w) {
      CbzInverted(w);
      ConditionalQuiet(Decode(InvertedCbz(w, true, 8)), (inv, d) => InvertedCbz(w, inv, d), 0x10_0000, Target19(src, w), dst);
    } else if IsTbz(w) {
      TbzInverted(w);
      ConditionalQuiet(Decode(InvertedTbz(w, true, 8)), (inv, d) => InvertedTbz(w, inv, d), 0x2000, Target14(src, w), dst);
    } else if IsLdrLiteral(w) {
      LiteralQuiet(src, dst, w, mem);
    } else {
      OneWordQuiet(w);
    }
  }

  lemma OneWordQuiet(w: Word)
    ensures QuietButLast([w])
  {}
}
