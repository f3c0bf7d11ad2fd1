/** Moving one ARM64 instruction keeps its meaning, and exactly when. */
module Arm64Relocation {
  import opened Arm64
  import opened Arm64Encoding
  import opened Arm64Copy
  import opened Arm64Meaning
  import opened Arm64Bits

  // ----------------------------------------------------- Immediate synthesis

  lemma MovPieceDecodes(rd: Reg, cur: bv32, def: bv32, hw: bv2, first: bool)
    requires cur <= 0xffff
    ensures Decode(MovPiece(rd, cur, def, hw, first)) ==
            if !first then MovWide(true, MovK, rd, cur as bv64, hw)
            else if def == 0xffff then MovWide(true, MovN, rd, (cur ^ 0xffff) as bv64, hw)
            else MovWide(true, MovZ, rd, cur as bv64, hw)
  {
    hide Decode, AssembleMov16;
    InvertBound(cur);
    MovDecodes(true, MovK, rd, cur, hw);
    MovDecodes(true, MovN, rd, cur ^ 0xffff, hw);
    MovDecodes(true, MovZ, rd, cur, hw);
  }

  lemma SetXTwice(c: Core, rd: Reg, v: bv64, w: bv64)
    ensures SetX(SetX(c, rd, v), rd, w) == SetX(c, rd, w)
    ensures rd != XZR ==> GetX(SetX(c, rd, v), rd) == v
  {
    if rd != XZR {
      assert c.x[rd as nat := v][rd as nat := w] == c.x[rd as nat := w];
    }
  }

  /** One step of a nonempty sequence. */
  lemma ExecSeqStep(other: OtherSemantics, w: Word, rest: seq<Word>, a: Addr, c: Core)
    ensures var o := Exec(other, Decode(w), a, c);
            ExecSeq(other, [w] + rest, a, c) ==
            if o.Next? then ExecSeq(other, rest, Plus(a, 4), o.core) else State(o.target, o.core)
    ensures End(a, [w] + rest) == End(Plus(a, 4), rest)
  {
    hide Exec, Decode;
    assert ([w] + rest)[1..] == rest;
  }

  /** One piece of the immediate: from the register value `v` to `v` with the piece inserted. */
  lemma PieceRuns(other: OtherSemantics, rd: Reg, cur: bv32, def: bv32, fill: bv64, hw: bv2, first: bool,
                  rest: seq<Word>, a: Addr, c0: Core, v: bv64, v': bv64)
    requires cur <= 0xffff && v' == Insert(v, cur, hw)
    requires Fills(def, fill)
    requires first ==> v == fill
    requires cur == def ==> v' == v
    ensures var ws := PieceWords(rd, cur, def, hw, first);
            var first' := first && !EmitsPiece(cur, def, hw == 0, first);
            && ExecSeq(other, ws + rest, a, RegisterAfter(c0, rd, first, v))
               == ExecSeq(other, rest, End(a, ws), RegisterAfter(c0, rd, first', v'))
            && End(a, ws + rest) == End(End(a, ws), rest)
            && (first' ==> v' == fill)
  {
    hide Decode, Exec, MovPiece, MovWideValue, Insert, Fills;
    var ws := PieceWords(rd, cur, def, hw, first);
    if EmitsPiece(cur, def, hw == 0, first) {
      var w := MovPiece(rd, cur, def, hw, first);
      MovPieceExec(other, rd, cur, def, fill, hw, first, a, c0, v, v');
      ExecSeqStep(other, w, rest, a, RegisterAfter(c0, rd, first, v));
      assert ws == [w] + [];
      ExecSeqStep(other, w, [], a, RegisterAfter(c0, rd, first, v));
    } else {
      assert ws + rest == rest;
    }
  }

  lemma MovPieceExec(other: OtherSemantics, rd: Reg, cur: bv32, def: bv32, fill: bv64, hw: bv2, first: bool,
                     a: Addr, c0: Core, v: bv64, v': bv64)
    requires cur <= 0xffff && v' == Insert(v, cur, hw)
    requires Fills(def, fill)
    requires first ==> v == fill
    ensures Exec(other, Decode(MovPiece(rd, cur, def, hw, first)), a, RegisterAfter(c0, rd, first, v))
         == Next(SetX(c0, rd, v'))
  {
    hide Decode, MovPiece, MovWideValue, GetX;
    MovPieceDecodes(rd, cur, def, hw, first);
    var prior := GetX(RegisterAfter(c0, rd, first, v), rd);
    if !first {
      SetXTwice(c0, rd, v, v');
      assert rd != XZR ==> prior == v;
    } else if def == 0xffff {
      FirstIsInvertedInsert(cur, hw, prior);
    } else {
      FirstIsInsert(cur, hw, prior);
    }
  }

  /** Executing the synthesised sequence leaves exactly the immediate in the register. */
  lemma MovPiecesRun(other: OtherSemantics, rd: Reg, imm: bv64, def: bv32, fill: bv64, rest: seq<Word>, a: Addr, c: Core)
    requires Fills(def, fill)
    ensures var ws := MovPieces(rd, imm, def);
            && ExecSeq(other, ws + rest, a, c) == ExecSeq(other, rest, End(a, ws), SetX(c, rd, imm))
  {
    hide Insert, PieceAt, PieceWords, ExecSeq, SetX, Low32;
    var p3, p2, p1, p0 := Piece(imm, 3), Piece(imm, 2), Piece(imm, 1), Piece(imm, 0);
    MaskBound(Low32(imm >> 48));
    MaskBound(Low32(imm >> 32));
    MaskBound(Low32(imm >> 16));
    MaskBound(Low32(imm));
    var v3 := Insert(fill, p3, 3);
    var v2 := Insert(v3, p2, 2);
    var v1 := Insert(v2, p1, 1);
    InsertAll(imm, fill);
    StillFill3(fill);
    StillFill2(fill, p3);
    StillFill1(fill, p3, p2);
    StillFill0(fill, p3, p2, p1);
    if p3 == def { InsertSame(fill, p3, 3); }
    if p2 == def { InsertSame(v3, p2, 2); }
    if p1 == def { InsertSame(v2, p1, 1); }
    if p0 == def { InsertSame(v1, p0, 0); }
    FourPieces(other, rd, p3, p2, p1, p0, def, fill, rest, a, c, v3, v2, v1, imm);
  }

  /** The four pieces in turn, with the intermediate register values named. */
  lemma FourPieces(other: OtherSemantics, rd: Reg, p3: bv32, p2: bv32, p1: bv32, p0: bv32, def: bv32, fill: bv64,
                   rest: seq<Word>, a: Addr, c: Core, v3: bv64, v2: bv64, v1: bv64, v0: bv64)
    requires Fills(def, fill)
    requires p3 <= 0xffff && p2 <= 0xffff && p1 <= 0xffff && p0 <= 0xffff
    requires v3 == Insert(fill, p3, 3) && v2 == Insert(v3, p2, 2) && v1 == Insert(v2, p1, 1) && v0 == Insert(v1, p0, 0)
    requires (p3 == def ==> v3 == fill) && (p2 == def ==> v2 == v3) && (p1 == def ==> v1 == v2) && (p0 == def ==> v0 == v1)
    ensures var f2 := p3 == def;
            var f1 := f2 && p2 == def;
            var f0 := f1 && p1 == def;
            var ws := PieceWords(rd, p3, def, 3, true) + (PieceWords(rd, p2, def, 2, f2)
                      + (PieceWords(rd, p1, def, 1, f1) + PieceWords(rd, p0, def, 0, f0)));
            ExecSeq(other, ws + rest, a, c) == ExecSeq(other, rest, End(a, ws), SetX(c, rd, v0))
  {
    hide Insert, PieceWords, ExecSeq, SetX, Fills;
    var f2 := p3 == def;
    var f1 := f2 && p2 == def;
    var f0 := f1 && p1 == def;
    var w3, w2 := PieceWords(rd, p3, def, 3, true), PieceWords(rd, p2, def, 2, f2);
    var w1, w0 := PieceWords(rd, p1, def, 1, f1), PieceWords(rd, p0, def, 0, f0);
    assert (w3 + (w2 + (w1 + w0))) + rest == w3 + (w2 + (w1 + (w0 + rest)));
    PieceRuns(other, rd, p3, def, fill, 3, true, w2 + (w1 + (w0 + rest)), a, c, fill, v3);
    var a3 := End(a, w3);
    PieceRuns(other, rd, p2, def, fill, 2, f2, w1 + (w0 + rest), a3, c, v3, v2);
    var a2 := End(a3, w2);
    PieceRuns(other, rd, p1, def, fill, 1, f1, w0 + rest, a2, c, v2, v1);
    var a1 := End(a2, w1);
    PieceRuns(other, rd, p0, def, fill, 0, f0, rest, a1, c, v1, v0);
    EndAppend(a, w3, w2 + (w1 + w0));
    EndAppend(a3, w2, w1 + w0);
    EndAppend(a2, w1, w0);
  }

  lemma {:induction false} EndAppend(a: Addr, ws: seq<Word>, vs: seq<Word>)
    ensures End(a, ws + vs) == End(End(a, ws), vs)
    decreases |ws|
  {
    if ws == [] {
      assert ws + vs == vs;
    } else {
      assert (ws + vs)[1..] == ws[1..] + vs;
      EndAppend(Plus(a, 4), ws[1..], vs);
    }
  }

  /** The register synthesis of `EmitMovImmediate`, in whichever form it takes: afterwards `rd` holds
    * exactly `imm` and nothing else has changed. */
  lemma MovImmediateRuns(other: OtherSemantics, rd: Reg, imm: bv64, rest: seq<Word>, a: Addr, c: Core)
    ensures var ws := MovImmediate(rd, imm);
            && ExecSeq(other, ws + rest, a, c) == ExecSeq(other, rest, End(a, ws), SetX(c, rd, imm))
            && End(a, ws + rest) == End(End(a, ws), rest)
  {
    hide Decode, ExecSeq, Piece, MovPieces, SetX, MovWideValue, Width, AssembleMov16, CountPieces;
    EndAppend(a, MovImmediate(rd, imm), rest);
    if FitsMovn32(imm) {
      var w := AssembleMov16(0, 0, rd, Piece(imm, 0) ^ 0xffff, 0);
      PieceIsSmall(imm);
      MovDecodes(false, MovN, rd, Piece(imm, 0) ^ 0xffff, 0);
      Movn32Value(imm, GetX(c, rd));
      ExecSeqStep(other, w, rest, a, c);
      assert MovImmediate(rd, imm) == [w] + [];
      ExecSeqStep(other, w, [], a, c);
    } else {
      MovPiecesRun(other, rd, imm, DefaultPiece(imm), if DefaultPiece(imm) == 0 then 0 else 0xffff_ffff_ffff_ffff,
                   rest, a, c);
    }
  }

  lemma PieceIsSmall(imm: bv64)
    ensures Piece(imm, 0) ^ 0xffff <= 0xffff
  {
    hide Low32;
    MaskBound(Low32(imm));
    InvertBound(Piece(imm, 0));
  }

  // ------------------------------------------------------ Conditional branches

  lemma ExecConditional(other: OtherSemantics, i: Instr, pc: Addr, c: Core)
    requires Conditional(i)
    ensures Exec(other, i, pc, c) == if Taken(i, c) then Goto(Plus(pc, i.off), c) else Next(c)
  {
    hide ConditionHolds, IsZero, BitSet, GetX, Plus;
  }

  lemma InvertFlips(i: Instr, c: Core)
    requires Conditional(i) && (i.BCond? ==> i.cond < 14)
    ensures Taken(Invert(i), c) != Taken(i, c)
  {
    hide ConditionHolds, IsZero, BitSet, GetX;
    if i.BCond? { ConditionInverts(i.cond, c.nzcv); }
  }

  lemma TakenIgnoresX17(i: Instr, c: Core, v: bv64)
    requires Conditional(i) && (!i.BCond? ==> i.rt != X17)
    ensures Taken(i, SetX(c, X17, v)) == Taken(i, c)
  {
    hide ConditionHolds, IsZero, BitSet;
    if !i.BCond? {
      X17Apart(i.rt, c, v);
    }
  }

  lemma X17Apart(rt: Reg, c: Core, v: bv64)
    requires rt != X17
    ensures GetX(SetX(c, X17, v), rt) == GetX(c, rt)
  {}

  lemma TakenWithOffset(i: Instr, off: bv64, c: Core)
    requires Conditional(i)
    ensures Taken(WithOffset(i, off), c) == Taken(i, c)
  {
    hide ConditionHolds, IsZero, BitSet, GetX;
  }

  lemma ExecSeqOne(other: OtherSemantics, w: Word, a: Addr, c: Core)
    ensures ExecSeq(other, [w], a, c) == Continue(Exec(other, Decode(w), a, c), Plus(a, 4))
    ensures End(a, [w]) == Plus(a, 4)
  {
    hide Exec, Decode;
    assert [w] == [w] + [];
    ExecSeqStep(other, w, [], a, c);
  }

  /** An inverted conditional over one transferring word: falls past both exactly when the original
    * condition fails. */
  lemma BranchOver(other: OtherSemantics, i: Instr, skip: Word, jump: Word, a: Addr, c: Core, target: Addr)
    requires Conditional(i) && (i.BCond? ==> i.cond < 14)
    requires Decode(skip) == WithOffset(Invert(i), 8)
    requires Exec(other, Decode(jump), Plus(a, 4), c) == Goto(target, c)
    ensures ExecSeq(other, [skip, jump], a, c) == State(if Taken(i, c) then target else End(a, [skip, jump]), c)
  {
    hide Exec, Decode, Taken, ConditionHolds, Plus;
    InvertFlips(i, c);
    TakenWithOffset(Invert(i), 8, c);
    ExecConditional(other, WithOffset(Invert(i), 8), a, c);
    assert [skip, jump] == [skip] + [jump];
    ExecSeqStep(other, skip, [jump], a, c);
    ExecSeqOne(other, jump, Plus(a, 4), c);
    Add44(a);
  }

  /** Re-encoded at the new address. */
  lemma NearConditional(other: OtherSemantics, i: Instr, w: Word, dst: Addr, target: Addr, c: Core)
    requires Conditional(i) && Decode(w) == WithOffset(i, Distance(dst, target))
    ensures ExecSeq(other, [w], dst, c) == State(if Taken(i, c) then target else End(dst, [w]), c)
  {
    hide Exec, Decode, Taken, Plus, Distance, ExecSeq;
    TakenWithOffset(i, Distance(dst, target), c);
    ExecConditional(other, WithOffset(i, Distance(dst, target)), dst, c);
    ExecSeqOne(other, w, dst, c);
    AddBack(dst, target);
  }

  /** Inverted over a B. */
  lemma MiddleConditional(other: OtherSemantics, i: Instr, skip: Word, dst: Addr, target: Addr, c: Core)
    requires Conditional(i) && (i.BCond? ==> i.cond < 14) && Decode(skip) == WithOffset(Invert(i), 8)
    requires Aligned(target) && Aligned(dst) && InRange(Distance(Plus(dst, 4), target), 0x800_0000)
    ensures var ws := [skip, AssembleBranch26(false, Low32(Distance(Plus(dst, 4), target)))];
            ExecSeq(other, ws, dst, c) == State(if Taken(i, c) then target else End(dst, ws), c)
  {
    hide Exec, Decode, Taken, Plus, Distance, ExecSeq, InRange, Low32, AssembleBranch26;
    AlignedSum(dst, 4);
    BranchTo(other, target, Plus(dst, 4), c);
    BranchOver(other, i, skip, AssembleBranch26(false, Low32(Distance(Plus(dst, 4), target))), dst, c, target);
  }

  /** The target in x17, then inverted over a BR x17. */
  lemma FarConditional(other: OtherSemantics, i: Instr, skip: Word, dst: Addr, target: Addr, c: Core)
    requires Conditional(i) && (i.BCond? ==> i.cond < 14) && Decode(skip) == WithOffset(Invert(i), 8)
    requires !i.BCond? ==> i.rt != X17
    ensures var ws := MovImmediate(X17, target) + [skip, AssembleBr(X17, false)];
            ExecSeq(other, ws, dst, c) == State(if Taken(i, c) then target else End(dst, ws), SetX(c, X17, target))
  {
    hide Exec, Decode, Taken, Plus, ExecSeq, MovImmediate, SetX, AssembleBr;
    var mov := MovImmediate(X17, target);
    MovImmediateRuns(other, X17, target, [skip, AssembleBr(X17, false)], dst, c);
    BrX17(other, Plus(End(dst, mov), 4), c, target);
    BranchOver(other, i, skip, AssembleBr(X17, false), End(dst, mov), SetX(c, X17, target), target);
    TakenIgnoresX17(i, c, target);
  }

  lemma ExpectedConditional(other: OtherSemantics, i: Instr, src: Addr, dst: Addr, end: Addr, c: Core)
    requires Conditional(i)
    ensures Expected(other, i, src, dst, end, c) ==
            State(if Taken(i, c) then Target(src, i) else end,
                  if UsesX17(i, src, dst) then SetX(c, X17, Target(src, i)) else c)
  {
    hide Exec, Taken, UsesX17, Plus, SetX;
    ExecConditional(other, i, src, c);
  }

  lemma ConditionalForms(i: Instr, src: Addr, dst: Addr, target: Addr, near: bv64)
    requires Conditional(i) && target == Target(src, i) && near == if i.Tbz? then 0x2000 else 0x10_0000
    ensures UsesX17(i, src, dst) <==>
            !InRange(Distance(dst, target), near) && !InRange(Distance(Plus(dst, 4), target), 0x800_0000)
    ensures Relocatable(i, src, dst) <==>
            && (i.BCond? && !InRange(Distance(dst, target), near) ==> i.cond < 14)
            && (!i.BCond? && UsesX17(i, src, dst) ==> i.rt != X17)
  {
    hide InRange, Distance, Plus;
  }

  /** A relocated conditional branch, in each of its forms, transfers to the original target exactly
    * when the original would and otherwise falls past the emitted words. */
  lemma ConditionalSimulates(other: OtherSemantics, i: Instr, cond: (bool, bv32) -> Word, src: Addr, dst: Addr,
                             target: Addr, near: bv64, c: Core)
    requires Conditional(i) && target == Target(src, i) && Aligned(target) && Aligned(dst)
    requires near == if i.Tbz? then 0x2000 else 0x10_0000
    requires InRange(Distance(dst, target), near) ==>
             Decode(cond(false, Low32(Distance(dst, target)))) == WithOffset(i, Distance(dst, target))
    requires Decode(cond(true, 8)) == WithOffset(Invert(i), 8)
    requires Relocatable(i, src, dst)
    ensures var ws := CopyConditional(cond, near, target, dst);
            ExecSeq(other, ws, dst, c) == Expected(other, i, src, dst, End(dst, ws), c)
  {
    hide Exec, Decode, Taken, InRange, ExecSeq, MovImmediate, SetX, Plus, Distance, Low32, AssembleBr,
         AssembleBranch26, End, Expected, Relocatable, UsesX17, Target, Aligned;
    ConditionalForms(i, src, dst, target, near);
    var ws := CopyConditional(cond, near, target, dst);
    ExpectedConditional(other, i, src, dst, End(dst, ws), c);
    if InRange(Distance(dst, target), near) {
      NearConditional(other, i, cond(false, Low32(Distance(dst, target))), dst, target, c);
    } else if InRange(Distance(Plus(dst, 4), target), 0x800_0000) {
      MiddleConditional(other, i, cond(true, 8), dst, target, c);
    } else {
      FarConditional(other, i, cond(true, 8), dst, target, c);
    }
  }

  lemma BranchTo(other: OtherSemantics, target: Addr, a: Addr, c: Core)
    requires Aligned(target) && Aligned(a) && InRange(Distance(a, target), 0x800_0000)
    ensures Exec(other, Decode(AssembleBranch26(false, Low32(Distance(a, target)))), a, c) == Goto(target, c)
  {
    hide Decode, AssembleBranch26, InRange, Low32, Plus, Distance;
    AlignedDelta(a, target);
    BranchDecodes(false, Distance(a, target));
    AddBack(a, target);
  }

  lemma BrX17(other: OtherSemantics, a: Addr, c: Core, target: Addr)
    ensures Exec(other, Decode(AssembleBr(X17, false)), a, SetX(c, X17, target)) == Goto(target, SetX(c, X17, target))
  {
    hide Decode, AssembleBr;
    BrDecodes(X17, false);
    SetXTwice(c, X17, target, target);
  }

  lemma MovImmediateLength(rd: Reg, imm: bv64)
    ensures 1 <= |MovImmediate(rd, imm)| <= 4
  {
    hide Piece, MovPiece, AssembleMov16;
  }

  lemma ConditionalLength(cond: (bool, bv32) -> Word, near: bv64, target: Addr, dst: Addr)
    ensures 1 <= |CopyConditional(cond, near, target, dst)| <= 6
  {
    hide MovImmediate, InRange, Distance, Plus, Low32;
    MovImmediateLength(X17, target);
  }

  lemma AdrLength(src: Addr, dst: Addr, w: Word)
    ensures 1 <= |CopyAdr(src, dst, w)| <= 4
  {
    hide MovImmediate, InRange, Distance, PageDelta, AdrTarget, AdrpTarget, Low32, Low12;
    MovImmediateLength(Rd(w), AdrTarget(src, w));
    MovImmediateLength(Rd(w), AdrpTarget(src, w));
  }

  lemma BranchLength(src: Addr, dst: Addr, w: Word, link: bool)
    ensures 1 <= |CopyBorBl(src, dst, w, link)| <= 5
  {
    hide MovImmediate, InRange, Distance, Target26, Low32;
    MovImmediateLength(X17, Target26(src, w));
  }

  lemma LiteralLength(src: Addr, dst: Addr, w: Word, mem: Memory)
    ensures 1 <= |CopyLdrLiteral(src, dst, w, mem)| <= 5
  {
    hide MovImmediate, InRange, Distance, Target19, LiteralValue, Low32;
    MovImmediateLength(X17, Target19(src, w));
    MovImmediateLength(Rd(w), LiteralValue(mem, w >> 30, Target19(src, w)));
  }

  /** No instruction expands to more than six words, the bound `rbCode` is sized by. */
  lemma CopyWordsLength(src: Addr, dst: Addr, w: Word, mem: Memory)
    ensures 1 <= |CopyWords(src, dst, w, mem)| <= 6
  {
    hide CopyAdr, CopyConditional, CopyBorBl, CopyLdrLiteral, Target19, Target14, InvertedBcc, InvertedCbz, InvertedTbz,
         IsPcRelAddress, IsBCond, IsBranchImm, IsCbz, IsTbz, IsLdrLiteral;
    AdrLength(src, dst, w);
    BranchLength(src, dst, w, w & 0x8000_0000 != 0);
    LiteralLength(src, dst, w, mem);
    ConditionalLength((inv, d) => InvertedBcc(w, inv, d), 0x10_0000, Target19(src, w), dst);
    ConditionalLength((inv, d) => InvertedCbz(w, inv, d), 0x10_0000, Target19(src, w), dst);
    ConditionalLength((inv, d) => InvertedTbz(w, inv, d), 0x2000, Target14(src, w), dst);
  }

  // -------------------------------------------------------------- Lengths

  lemma PlusOfSum(a: bv64, b: bv64, d: bv64)
    ensures Plus(a + b, d) == Plus(a, b + d)
  {}

  lemma PlusAssociates(a: bv64, b: bv64, d: bv64)
    ensures Plus(Plus(a, b), d) == Plus(a, Plus(b, d))
  {
    hide *;
    PlusIs(a, b);
    PlusIs(b, d);
    PlusOfSum(a, b, d);
  }

  lemma PlusThenDistance(a: bv64, d: bv64)
    ensures Distance(a, Plus(a, d)) == d
  {
    assert Plus(a, d) == a + d;
    assert Distance(a, a + d) == a + d - a;
  }

  function Bytes(n: nat): bv64 { if n == 0 then 0 else Plus(Bytes(n - 1), 4) }

  lemma {:induction false} EndBy(a: Addr, ws: seq<Word>, dst: Addr, n: nat)
    requires a == Plus(dst, Bytes(n))
    ensures End(a, ws) == Plus(dst, Bytes(n + |ws|))
    decreases |ws|
  {
    hide Plus;
    if ws != [] {
      PlusAssociates(dst, Bytes(n), 4);
      EndBy(Plus(a, 4), ws[1..], dst, n + 1);
    }
  }

  lemma BytesSmall(n: nat)
    requires n <= 6
    ensures Bytes(n) <= 24 && Aligned(Bytes(n))
  {
    assert Bytes(1) == 4;
    assert Bytes(2) == 8;
    assert Bytes(3) == 12;
    assert Bytes(4) == 16;
    assert Bytes(5) == 20;
    assert Bytes(6) == 24;
  }

  lemma EndOffset(dst: Addr, ws: seq<Word>) returns (d: bv64)
    requires |ws| <= 6
    ensures End(dst, ws) == Plus(dst, d) && d <= 24 && Aligned(d)
  {
    hide Plus, End;
    d := Bytes(|ws|);
    BytesSmall(|ws|);
    PlusZero(dst);
    assert Bytes(0) == 0;
    EndBy(dst, ws, dst, 0);
  }
}
