/** The loop that copies the displaced instructions of an x64 function into the thirty bytes of `rbCode`
  * (detours/src/detours.cpp:2168-2202, 2236-2300): the bytes it writes and where.
  */
module X64Trampoline {
  import opened PayloadLayout
  import opened X64Copy
  import opened X64Simulation

  const RB_CODE := 30
  const SIZE_OF_JMP := 5
  const SIZE_OF_EXIT := 6

  // --------------------------------------------------------------- One instruction

  /** Entries whose relative field takes four bytes, or one if the copy must not be enlarged. */
  predicate Regular(e: CopyEntry) {
    e.CopyBytes? ==>
      && e.nFixedSize >= 1 && e.nFixedSize16 >= 1
      && (e.nRelOffset > 0 ==> e == Bytes2CantJump || e == Bytes3Or5Target)
      && (e.flag == NOENLARGE ==> e == Bytes2CantJump)
  }

  /** How much an instruction grows: not at all, or by three or four bytes for a short jump. Only LOOP and
    * JCXZ report less than they write.
    */
  predicate GrowsWell(c: Copied) {
    && c.cbSrc >= 1 && (c.extra == -3 || c.extra == 0 || c.extra == 3 || c.extra == 4)
    && (c.extra > 0 ==> c.cbSrc >= 2)
    && (c.extra >= 0 ==> |c.bytes| <= c.cbSrc + c.extra)
    && (c.extra > 0 ==> |c.bytes| == c.cbSrc + c.extra)
    && |c.bytes| <= c.cbSrc + 4
  }

  lemma EntriesRegular(b: byte)
    ensures Regular(CopyTable(b)) && Regular(CopyTable0F(b))
  {}

  lemma BytesGrow(e: CopyEntry, o: Overrides, code: seq<byte>, src: int, dst: int)
    requires e.CopyBytes? && Regular(e) && (e.nModOffset > 0 ==> e.nRelOffset == 0) && CopyBytesOf(e, o, code, src, dst).Some?
    ensures GrowsWell(CopyBytesOf(e, o, code, src, dst).value)
  {
    hide LittleEndian, Signed, Fits;
  }

  lemma BehindGrows(front: seq<byte>, c: Option<Copied>)
    requires c.Some? ==> GrowsWell(c.value)
    ensures Behind(front, c).Some? ==> GrowsWell(Behind(front, c).value)
  {}

  lemma {:induction false} CopyGrows(e: CopyEntry, o: Overrides, code: seq<byte>, src: int, dst: int)
    requires Regular(e) && Copy(e, o, code, src, dst).Some?
    ensures GrowsWell(Copy(e, o, code, src, dst).value)
    decreases |code|, if e.CopyBytes? then 0 else 1
  {
    hide CopyTable, CopyTable0F, CopyBytesOf, LittleEndian, Signed, GrowsWell, Prefixed, Vex;
    match e
    case CopyBytes(_, _, _, _, _) => BytesGrow(e, o, code, src, dst);
    case CopyBytesJump => JumpGrows(code, src, dst);
    case CopyBytesPrefix => PrefixedGrows(o, code, src, dst);
    case CopyBytesSegment => PrefixedGrows(o.(segment := code[0]), code, src, dst);
    case CopyBytesRax => PrefixedGrows(o.(rax := o.rax || code[0] / 8 % 2 == 1), code, src, dst);
    case Copy66 => PrefixedGrows(o.(operand := true), code, src, dst);
    case Copy67 => PrefixedGrows(o.(address := true), code, src, dst);
    case CopyF2 => PrefixedGrows(o.(f2 := true), code, src, dst);
    case CopyF3 => PrefixedGrows(o.(f3 := true), code, src, dst);
    case Copy0F =>
      EntriesRegular(code[1]);
      CopyGrows(CopyTable0F(code[1]), o, code[1..], src + 1, dst + 1);
      BehindGrows(code[..1], Copy(CopyTable0F(code[1]), o, code[1..], src + 1, dst + 1));
    case Copy0F78 => BytesGrow(if o.f2 || o.operand then Bytes4 else Bytes2Mod, o, code, src, dst);
    case CopyF6 => BytesGrow(if code[1] / 8 % 8 == 0 then Bytes2Mod1 else Bytes2Mod, o, code, src, dst);
    case CopyF7 => BytesGrow(if code[1] / 8 % 8 == 0 then Bytes2ModOperand else Bytes2Mod, o, code, src, dst);
    case CopyFF => IndirectGrows(o, code, src, dst);
    case CopyVex2 => VexGrows(1, 2, code[1] % 4, o, code, src, dst);
    case CopyVex3 => VexGrows(code[1] % 0x20, 3, code[2] % 4, o.(rax := o.rax || code[2] >= 0x80), code, src, dst);
    case CopyEvex =>
      if code[1] / 8 % 2 == 1 || code[2] / 4 % 2 == 0 {
        InvalidGrows();
      } else {
        VexGrows(code[1] % 4 + code[1] / 4 % 2 * 4, 4, code[2] % 4, o.(rax := o.rax || code[2] >= 0x80), code, src, dst);
      }
    case CopyXop =>
      var m := code[1] % 0x20;
      BytesGrow(if m == 8 then BytesXop1 else if m == 9 then BytesXop else if m == 10 then BytesXop4 else Bytes2Mod, o, code, src, dst);
    case Invalid => InvalidGrows();
  }

  lemma JumpGrows(code: seq<byte>, src: int, dst: int)
    requires code != [] && (code[0] == 0xeb || 0x70 <= code[0] < 0x80) && CopyJump(code, src, dst).Some?
    ensures GrowsWell(CopyJump(code, src, dst).value)
  {}

  lemma InvalidGrows()
    ensures GrowsWell(Copied([], 1, NoTarget, 0))
  {}

  lemma IndirectGrows(o: Overrides, code: seq<byte>, src: int, dst: int)
    requires code != [] && CopyIndirect(o, code, src, dst).Some?
    ensures GrowsWell(CopyIndirect(o, code, src, dst).value)
  {
    hide CopyBytesOf;
    BytesGrow(Bytes2Mod, o, code, src, dst);
  }

  lemma {:induction false} PrefixedGrows(o: Overrides, code: seq<byte>, src: int, dst: int)
    requires code != [] && Prefixed(o, code, src, dst).Some?
    ensures GrowsWell(Prefixed(o, code, src, dst).value)
    decreases |code|, 0
  {
    hide CopyTable, GrowsWell;
    EntriesRegular(code[1]);
    CopyGrows(CopyTable(code[1]), o, code[1..], src + 1, dst + 1);
    BehindGrows(code[..1], Copy(CopyTable(code[1]), o, code[1..], src + 1, dst + 1));
  }

  lemma {:induction false} VexGrows(m: nat, n: nat, p: nat, o: Overrides, code: seq<byte>, src: int, dst: int)
    requires 0 < n < |code| && Vex(m, n, p, o, code, src, dst).Some?
    ensures GrowsWell(Vex(m, n, p, o, code, src, dst).value)
    decreases |code|, 0
  {
    hide CopyTable0F, CopyBytesOf, GrowsWell;
    var o' := if p == 1 then o.(operand := true) else if p == 2 then o.(f3 := true) else if p == 3 then o.(f2 := true) else o;
    var rest := code[n..];
    if m == 1 {
      EntriesRegular(rest[0]);
      CopyGrows(CopyTable0F(rest[0]), o', rest, src + n, dst + n);
      BehindGrows(code[..n], Copy(CopyTable0F(rest[0]), o', rest, src + n, dst + n));
    } else if m == 2 || m == 5 || m == 6 {
      BytesGrow(Bytes2Mod, o', rest, src + n, dst + n);
      BehindGrows(code[..n], CopyBytesOf(Bytes2Mod, o', rest, src + n, dst + n));
    } else if m == 3 {
      BytesGrow(Bytes2Mod1, o', rest, src + n, dst + n);
      BehindGrows(code[..n], CopyBytesOf(Bytes2Mod1, o', rest, src + n, dst + n));
    } else {
      InvalidGrows();
      BehindGrows(code[..n], Some(Copied([], 1, NoTarget, 0)));
    }
  }

  lemma InstructionGrows(code: seq<byte>, src: int, dst: int)
    requires CopyInstruction(code, src, dst).Some?
    ensures GrowsWell(CopyInstruction(code, src, dst).value)
  {
    hide Copy, CopyTable, GrowsWell;
    EntriesRegular(code[0]);
    CopyGrows(CopyTable(code[0]), NO_OVERRIDES, code, src, dst);
  }

  // ------------------------------------------------------------------- The copy loop

  /** detour_does_code_end_function. */
  predicate EndsFunction(code: seq<byte>) {
    if code == [] then false
    else
      || code[0] == 0xeb || code[0] == 0xe9 || code[0] == 0xe0 || code[0] == 0xc2 || code[0] == 0xc3 || code[0] == 0xcc
      || (|code| >= 2 && code[0] == 0xf3 && code[1] == 0xc3)
      || (|code| >= 2 && code[0] == 0xff && code[1] == 0x25)
      || (|code| >= 3 && (code[0] == 0x26 || code[0] == 0x2e || code[0] == 0x36 || code[0] == 0x3e || code[0] == 0x64 || code[0] == 0x65)
          && code[1] == 0xff && code[2] == 0x25)
  }

  /** How far a copy moves the cursor in the trampoline. */
  function Step(c: Copied): int { c.cbSrc + c.extra }

  /** The copies the loop makes from byte `read` of the function on, the cursor being at `at`: it goes on
    * until a jump's worth of bytes has been read or the function ends. Each copy reads a byte or more, so
    * the eight entries of the alignment array always suffice.
    */
  function Displaced(code: seq<byte>, src: int, dst: int, read: nat, at: int): seq<Copied>
    decreases SIZE_OF_JMP - read
  {
    if read >= SIZE_OF_JMP || read > |code| then []
    else
      match CopyInstruction(code[read..], src + read, dst + at)
      case None => []
      case Some(c) =>
        InstructionGrows(code[read..], src + read, dst + at);
        [c] + if EndsFunction(code[read..]) then [] else Displaced(code, src, dst, read + c.cbSrc, at + Step(c))
  }

  function Read(cs: seq<Copied>): nat { if cs == [] then 0 else cs[0].cbSrc + Read(cs[1..]) }

  function Cursor(cs: seq<Copied>, at: int): int { if cs == [] then at else Cursor(cs[1..], at + Step(cs[0])) }

  /** The bytes of a buffer once the copies have been written from `at` on. */
  function Laid(buf: seq<byte>, cs: seq<Copied>, at: int): (r: seq<byte>)
    ensures |r| == |buf|
    decreases |cs|
  {
    if cs == [] then buf
    else
      var c := cs[0];
      Laid(if 0 <= at && at + |c.bytes| <= |buf| then buf[..at] + c.bytes + buf[at + |c.bytes|..] else buf, cs[1..], at + Step(c))
  }

  /** Every copy is written between 0 and `hi`. */
  predicate Within(cs: seq<Copied>, at: int, hi: int) {
    cs == [] || (0 <= at && at + |cs[0].bytes| <= hi && Within(cs[1..], at + Step(cs[0]), hi))
  }

  /** No LOOP or JCXZ out of range, and no copy takes more than `n` bytes. */
  predicate Roomy(cs: seq<Copied>, n: int) { Forward(cs) && forall c | c in cs :: Step(c) <= n }

  /** No LOOP or JCXZ out of range: the cursor never moves back. */
  predicate Forward(cs: seq<Copied>) { forall c | c in cs :: c.extra >= 0 }

  /** Where the cursor can be once `read` bytes have been displaced: two short jumps grow by eight. */
  function Bound(read: nat): int { if read < 2 then read else if read < 4 then read + 4 else 12 }

  lemma StepBound(c: Copied, read: nat, at: int)
    requires GrowsWell(c) && c.extra >= 0 && Step(c) <= 12 && read < SIZE_OF_JMP && 0 <= at <= Bound(read)
    ensures at + |c.bytes| <= at + Step(c) <= 24
    ensures read + c.cbSrc < SIZE_OF_JMP ==> at + Step(c) <= Bound(read + c.cbSrc)
  {}

  lemma NextDisplaced(code: seq<byte>, src: int, dst: int, read: nat, at: int)
    requires read < SIZE_OF_JMP && read <= |code| && CopyInstruction(code[read..], src + read, dst + at).Some?
    ensures var c, cs := CopyInstruction(code[read..], src + read, dst + at).value, Displaced(code, src, dst, read, at);
      && GrowsWell(c) && cs != [] && cs[0] == c && c in cs
      && cs[1..] == (if EndsFunction(code[read..]) then [] else Displaced(code, src, dst, read + c.cbSrc, at + Step(c)))
  {
    hide CopyInstruction, EndsFunction, GrowsWell;
    InstructionGrows(code[read..], src + read, dst + at);
    assert Displaced(code, src, dst, read, at)[0] == CopyInstruction(code[read..], src + read, dst + at).value;
  }

  lemma NothingMore(code: seq<byte>, src: int, dst: int, read: nat, at: int)
    requires read >= SIZE_OF_JMP || read > |code| || CopyInstruction(code[read..], src + read, dst + at).None?
    ensures Displaced(code, src, dst, read, at) == []
  {}

  lemma CursorStep(cs: seq<Copied>, at: int)
    requires cs != []
    ensures Cursor(cs, at) == Cursor(cs[1..], at + Step(cs[0])) && Read(cs) == cs[0].cbSrc + Read(cs[1..])
  {}

  lemma ForwardHead(cs: seq<Copied>)
    requires cs != [] && Forward(cs)
    ensures cs[0].extra >= 0 && Forward(cs[1..])
  {
    assert cs[0] in cs;
  }

  lemma ReadsSome(c: Copied)
    requires GrowsWell(c)
    ensures c.cbSrc >= 1
  {}

  lemma {:induction false} DisplacedFitsFrom(code: seq<byte>, src: int, dst: int, read: nat, at: int)
    requires Roomy(Displaced(code, src, dst, read, at), 12) && 0 <= at
    requires if read < SIZE_OF_JMP then at <= Bound(read) else at <= 24
    ensures Within(Displaced(code, src, dst, read, at), at, 24) && at <= Cursor(Displaced(code, src, dst, read, at), at) <= 24
    decreases SIZE_OF_JMP - read
  {
    hide CopyInstruction, EndsFunction, Roomy, Bound, GrowsWell, Displaced, Within, Cursor, Step;
    var cs := Displaced(code, src, dst, read, at);
    if read < SIZE_OF_JMP { BoundIs(read); }
    if read < SIZE_OF_JMP && read <= |code| && CopyInstruction(code[read..], src + read, dst + at).Some? {
      var c := CopyInstruction(code[read..], src + read, dst + at).value;
      NextDisplaced(code, src, dst, read, at);
      RoomyParts(cs, 12);
      StepBound(c, read, at);
      GrowsForward(c);
      CursorStep(cs, at);
      WithinStep(cs, at, 24);
      if EndsFunction(code[read..]) {
        NothingLeft(at + Step(c), 24);
      } else {
        DisplacedFitsFrom(code, src, dst, read + c.cbSrc, at + Step(c));
      }
    } else {
      NothingMore(code, src, dst, read, at);
      NothingLeft(at, 24);
    }
  }

  lemma WithinStep(cs: seq<Copied>, at: int, hi: int)
    requires cs != []
    ensures Within(cs, at, hi) <==> 0 <= at && at + |cs[0].bytes| <= hi && Within(cs[1..], at + Step(cs[0]), hi)
  {}

  lemma NothingLeft(at: int, hi: int)
    ensures Within([], at, hi) && Cursor([], at) == at && Read([]) == 0 && Forward([])
  {}

  lemma BoundIs(read: nat)
    requires read < SIZE_OF_JMP
    ensures Bound(read) <= 12
  {}

  lemma GrowsForward(c: Copied)
    requires GrowsWell(c) && c.extra >= 0
    ensures c.cbSrc >= 1 && Step(c) >= 0
  {}

  lemma RoomyParts(cs: seq<Copied>, n: int)
    requires Roomy(cs, n) && cs != []
    ensures cs[0].extra >= 0 && Step(cs[0]) <= n && Roomy(cs[1..], n)
  {
    assert cs[0] in cs;
  }

  /** However many short jumps are widened, the displaced code and the jump behind it fit the thirty bytes
    * of `rbCode`, wherever the trampoline is, if no copy takes more than twelve bytes: the check on
    * `cbTarget` alone does not say so, the stop of the copy loop does.
    */
  lemma DisplacedFits(code: seq<byte>, src: int, dst: int)
    requires Roomy(Displaced(code, src, dst, 0, 0), 12)
    ensures var cs := Displaced(code, src, dst, 0, 0); Within(cs, 0, 24) && 0 <= Cursor(cs, 0) && Cursor(cs, 0) + SIZE_OF_EXIT <= RB_CODE
  {
    hide Displaced, Roomy, Within, Cursor;
    DisplacedFitsFrom(code, src, dst, 0, 0);
  }

  lemma SameStep(a: Copied, b: Copied)
    requires GrowsWell(a) && GrowsWell(b) && a.extra >= 0 && b.extra >= 0 && a.cbSrc == b.cbSrc && |a.bytes| == |b.bytes|
    ensures Step(a) == Step(b)
  {}

  lemma InstructionMeasured(code: seq<byte>, src: int, dst: int, dst2: int)
    ensures SameMeasure(CopyInstruction(code, src, dst), CopyInstruction(code, src, dst2))
  {
    hide Copy, CopyTable;
    if code != [] { MeasureCopy(CopyTable(code[0]), NO_OVERRIDES, code, src, dst, dst2); }
  }

  /** The room the copies take does not depend on where they go. */
  lemma {:induction false} SameLength(code: seq<byte>, src: int, dst: int, dst2: int, read: nat, at: int)
    requires Forward(Displaced(code, src, dst, read, at)) && Forward(Displaced(code, src, dst2, read, at))
    ensures Cursor(Displaced(code, src, dst, read, at), at) == Cursor(Displaced(code, src, dst2, read, at), at)
    ensures Read(Displaced(code, src, dst, read, at)) == Read(Displaced(code, src, dst2, read, at))
    decreases SIZE_OF_JMP - read
  {
    hide CopyInstruction, EndsFunction, GrowsWell, Forward, Step, Displaced, Cursor, Read;
    var cs, ds := Displaced(code, src, dst, read, at), Displaced(code, src, dst2, read, at);
    if read < SIZE_OF_JMP && read <= |code| {
      var rest := code[read..];
      InstructionMeasured(rest, src + read, dst + at, dst2 + at);
      if CopyInstruction(rest, src + read, dst + at).Some? {
        var a, b := CopyInstruction(rest, src + read, dst + at).value, CopyInstruction(rest, src + read, dst2 + at).value;
        NextDisplaced(code, src, dst, read, at);
        NextDisplaced(code, src, dst2, read, at);
        ForwardHead(cs);
        ForwardHead(ds);
        SameStep(a, b);
        CursorStep(cs, at);
        CursorStep(ds, at);
        if !EndsFunction(rest) {
          ReadsSome(a);
          SameLength(code, src, dst, dst2, read + a.cbSrc, at + Step(a));
        }
        return;
      }
    }
    NothingMore(code, src, dst, read, at);
    NothingMore(code, src, dst2, read, at);
  }

  /** Copies that only move forward stay below the cursor. */
  lemma {:induction false} ForwardWithin(cs: seq<Copied>, at: int)
    requires Forward(cs) && at >= 0 && forall c | c in cs :: GrowsWell(c)
    ensures Within(cs, at, Cursor(cs, at)) && Cursor(cs, at) >= at
    decreases |cs|
  {
    if cs != [] {
      assert cs[0] in cs;
      ForwardWithin(cs[1..], at + Step(cs[0]));
      WithinMore(cs[1..], at + Step(cs[0]), Cursor(cs, at), Cursor(cs, at));
    }
  }

  lemma {:induction false} WithinMore(cs: seq<Copied>, at: int, hi: int, more: int)
    requires Within(cs, at, hi) && hi <= more
    ensures Within(cs, at, more)
    decreases |cs|
  {
    if cs != [] { WithinMore(cs[1..], at + Step(cs[0]), hi, more); }
  }

  lemma {:induction false} DisplacedGrow(code: seq<byte>, src: int, dst: int, read: nat, at: int)
    ensures forall c | c in Displaced(code, src, dst, read, at) :: GrowsWell(c)
    decreases SIZE_OF_JMP - read
  {
    hide CopyInstruction, EndsFunction, GrowsWell, Displaced;
    if read < SIZE_OF_JMP && read <= |code| && CopyInstruction(code[read..], src + read, dst + at).Some? {
      NextDisplaced(code, src, dst, read, at);
      var c, cs := CopyInstruction(code[read..], src + read, dst + at).value, Displaced(code, src, dst, read, at);
      assert cs == [c] + cs[1..];
      ReadsSome(c);
      if !EndsFunction(code[read..]) { DisplacedGrow(code, src, dst, read + c.cbSrc, at + Step(c)); }
    } else {
      NothingMore(code, src, dst, read, at);
    }
  }

  /** The displaced code and the exit jump fit exactly if they are measured, anywhere, to take no more than
    * 24 bytes.
    */
  lemma FitsAsMeasured(code: seq<byte>, src: int, dst: int, dst2: int)
    requires Forward(Displaced(code, src, dst, 0, 0)) && Forward(Displaced(code, src, dst2, 0, 0))
    ensures var cs := Displaced(code, src, dst, 0, 0);
      Within(cs, 0, RB_CODE - SIZE_OF_EXIT) && Cursor(cs, 0) + SIZE_OF_EXIT <= RB_CODE
      <==> Cursor(Displaced(code, src, dst2, 0, 0), 0) <= RB_CODE - SIZE_OF_EXIT
  {
    hide Displaced, Forward, GrowsWell;
    var cs := Displaced(code, src, dst, 0, 0);
    DisplacedGrow(code, src, dst, 0, 0);
    SameLength(code, src, dst, dst2, 0, 0);
    ForwardWithin(cs, 0);
    if Cursor(cs, 0) <= 24 { WithinMore(cs, 0, Cursor(cs, 0), 24); }
  }

  // ------------------------------------------------------------- What does not fit

  /** jne to the next instruction. */
  const JNE: seq<byte> := [0x75, 0x00]

  /** mov qword ptr fs:[rsp+0], 0, with 32-bit displacement: thirteen bytes. */
  const MOV13: seq<byte> := [0x64, 0x48, 0xc7, 0x84, 0x24, 0x00, 0x00, 0x00, 0x00, 0x00, 0x00, 0x00, 0x00]

  /** A short jump behind ten segment prefixes: twelve bytes. */
  const JMP12: seq<byte> := [0x2e, 0x2e, 0x2e, 0x2e, 0x2e, 0x2e, 0x2e, 0x2e, 0x2e, 0x2e, 0xeb, 0x00]

  lemma JneCopied(rest: seq<byte>, src: int, dst: int)
    ensures var c := CopyInstruction(JNE + rest, src, dst); c.Some? && c.value.cbSrc == 2 && c.value.extra == 4
    ensures !EndsFunction(JNE + rest)
  {
    hide LittleEndian, Signed;
    var code := JNE + rest;
    assert code[0] == 0x75 && |code| >= 2;
    assert CopyTable(0x75) == CopyBytesJump;
  }

  lemma PrefixCopied(p: byte, o: Overrides, rest: seq<byte>, src: int, dst: int) returns (o1: Overrides)
    requires rest != [] && (p == 0x64 || p == 0x2e || p == 0x48)
    ensures o1 == (if p == 0x48 then o.(rax := true) else o.(segment := p))
    ensures Copy(CopyTable(p), o, [p] + rest, src, dst) == Behind([p], Copy(CopyTable(rest[0]), o1, rest, src + 1, dst + 1))
  {
    hide CopyTable;
    var code := [p] + rest;
    assert code[1..] == rest && code[..1] == [p] && code[1] == rest[0];
    o1 := if p == 0x48 then o.(rax := true) else o.(segment := p);
    PrefixEntries();
  }

  lemma PrefixEntries()
    ensures CopyTable(0x64) == CopyTable(0x2e) == CopyBytesSegment && CopyTable(0x48) == CopyBytesRax
  {}

  lemma Mov11Copied(o: Overrides, src: int, dst: int)
    requires o.rax
    ensures var c := Copy(CopyTable(0xc7), o, MOV13[2..], src, dst); c.Some? && c.value.cbSrc == 11 && c.value.extra == 0
  {
    hide LittleEndian, Signed;
    var code := MOV13[2..];
    assert |code| == 11 && code[1] == 0x84 && code[2] == 0x24;
    assert CopyTable(0xc7) == Bytes2ModOperand;
    assert SizeOf(Bytes2ModOperand, o, code) == Some(11);
  }

  lemma Mov13Copied(src: int, dst: int)
    ensures var c := CopyInstruction(MOV13, src, dst); c.Some? && c.value.cbSrc == 13 && c.value.extra == 0
  {
    hide Copy, CopyTable;
    assert MOV13 == [0x64] + MOV13[1..] && MOV13[1..] == [0x48] + MOV13[2..] && MOV13[2..][0] == 0xc7;
    var o1 := PrefixCopied(0x64, NO_OVERRIDES, MOV13[1..], src, dst);
    var o2 := PrefixCopied(0x48, o1, MOV13[2..], src + 1, dst + 1);
    Mov11Copied(o2, src + 2, dst + 2);
  }

  /** Any number of segment prefixes in front of a short jump. */
  lemma {:induction false} PrefixedJump(n: nat, o: Overrides, code: seq<byte>, src: int, dst: int)
    requires |code| == n + 2 && (forall k | 0 <= k < n :: code[k] == 0x2e) && code[n] == 0xeb
    ensures var c := Copy(CopyTable(code[0]), o, code, src, dst); c.Some? && c.value.cbSrc == n + 2 && c.value.extra == 3
    decreases n
  {
    if n == 0 {
      hide LittleEndian, Signed;
      assert CopyTable(0xeb) == CopyBytesJump;
    } else {
      hide Copy, CopyTable;
      assert code == [0x2e] + code[1..];
      var o1 := PrefixCopied(0x2e, o, code[1..], src, dst);
      PrefixedJump(n - 1, o1, code[1..], src + 1, dst + 1);
    }
  }

  /** Two short conditional jumps and an instruction of `n` bytes that grows by `extra`. */
  lemma AfterTwoJumps(last: seq<byte>, src: int, dst: int, n: nat, extra: int)
    requires n >= 1 && extra >= 0
    requires forall s, d :: var c := CopyInstruction(last, s, d); c.Some? && c.value.cbSrc == n && c.value.extra == extra
    ensures var cs := Displaced(JNE + (JNE + last), src, dst, 0, 0); Forward(cs) && Read(cs) == 4 + n && Cursor(cs, 0) == 12 + n + extra
  {
    hide CopyInstruction, EndsFunction, GrowsWell, Displaced, JNE, Forward, Cursor, Read;
    var code := JNE + (JNE + last);
    var cs := Displaced(code, src, dst, 0, 0);
    assert |JNE| == 2 by { TwoBytes(); }
    assert code[0..] == code && code[2..] == JNE + last && code[4..] == last;
    JneCopied(JNE + last, src, dst);
    NextDisplaced(code, src, dst, 0, 0);
    var ds := Displaced(code, src, dst, 2, 6);
    JneCopied(last, src + 2, dst + 6);
    NextDisplaced(code, src, dst, 2, 6);
    var es := Displaced(code, src, dst, 4, 12);
    var c := CopyInstruction(last, src + 4, dst + 12);
    assert c.Some? && c.value.cbSrc == n && c.value.extra == extra;
    NextDisplaced(code, src, dst, 4, 12);
    NothingMore(code, src, dst, 4 + n, 12 + Step(c.value));
    OnlyThis(es, 12);
    CursorStep(ds, 6);
    CursorStep(cs, 0);
    ForwardFirst(ds);
    ForwardFirst(cs);
  }

  lemma OnlyThis(cs: seq<Copied>, at: int)
    requires cs != [] && cs[1..] == [] && cs[0].extra >= 0
    ensures Forward(cs) && Read(cs) == cs[0].cbSrc && Cursor(cs, at) == at + Step(cs[0])
  {
    assert cs == [cs[0]];
  }

  lemma ForwardFirst(cs: seq<Copied>)
    requires cs != [] && cs[0].extra >= 0 && Forward(cs[1..])
    ensures Forward(cs)
  {
    assert cs == [cs[0]] + cs[1..];
  }

  lemma TwoBytes()
    ensures |JNE| == 2
  {}

  /** Thirteen bytes are too many: two short conditional jumps and such an instruction pass the check on
    * `cbTarget`, and their copies and the exit jump take 31 bytes.
    */
  lemma ThirteenDoesNotFit(src: int, dst: int)
    ensures var cs := Displaced(JNE + (JNE + MOV13), src, dst, 0, 0);
      && Forward(cs) && SIZE_OF_JMP <= Read(cs) <= RB_CODE - SIZE_OF_JMP && Cursor(cs, 0) + SIZE_OF_EXIT > RB_CODE
  {
    forall s, d
      ensures var c := CopyInstruction(MOV13, s, d); c.Some? && c.value.cbSrc == 13 && c.value.extra == 0
    {
      Mov13Copied(s, d);
    }
    hide Displaced, CopyInstruction, Cursor, Read;
    AfterTwoJumps(MOV13, src, dst, 13, 0);
  }

  /** It is the copies that may not exceed twelve bytes, not the instructions: a short jump of twelve bytes
    * does not fit either.
    */
  lemma TwelveWidenedDoesNotFit(src: int, dst: int)
    ensures var cs := Displaced(JNE + (JNE + JMP12), src, dst, 0, 0);
      && Forward(cs) && SIZE_OF_JMP <= Read(cs) <= RB_CODE - SIZE_OF_JMP && Cursor(cs, 0) + SIZE_OF_EXIT > RB_CODE
  {
    forall s, d
      ensures var c := CopyInstruction(JMP12, s, d); c.Some? && c.value.cbSrc == 12 && c.value.extra == 3
    {
      PrefixedJump(10, NO_OVERRIDES, JMP12, s, d);
    }
    hide Displaced, CopyInstruction, Cursor, Read;
    AfterTwoJumps(JMP12, src, dst, 12, 3);
  }

  /** LOOP out of range moves the cursor back: the next copy would begin in front of `rbCode`. */
  lemma LoopMovesBack(rest: seq<byte>, src: int, dst: int)
    requires dst - src > 0x80
    ensures var cs := Displaced([0xe2, 0x00] + rest, src, dst, 0, 0); cs != [] && Step(cs[0]) == -1
  {
    var code := [0xe2, 0x00] + rest;
    assert code[0..] == code && code[0] == 0xe2;
    assert CopyTable(0xe2) == Bytes2CantJump;
    LoopField(NO_OVERRIDES, code, src, dst);
    ZeroOffset(code[1..2]);
    FarOffset(dst - src);
    hide LittleEndian, Signed, Fits, CopyTable, EndsFunction;
    NextDisplaced(code, src, dst, 0, 0);
  }

  lemma ZeroOffset(s: seq<byte>)
    requires s == [0]
    ensures Signed(s) == 0
  {
    assert s[1..] == [];
    assert Unsigned(s) == 0;
  }

  lemma FarOffset(d: int)
    requires d > 0x80
    ensures !Fits(1, 0 - d)
  {}

  // ------------------------------------------------------------------- In the buffer

  method Put(rbCode: array<byte>, at: nat, bytes: seq<byte>)
    requires at + |bytes| <= rbCode.Length
    modifies rbCode
    ensures rbCode[..] == old(rbCode[..at]) + bytes + old(rbCode[at + |bytes|..])
  {
    for k := 0 to |bytes|
      invariant rbCode[..at] == old(rbCode[..at]) && rbCode[at..at + k] == bytes[..k] && rbCode[at + k..] == old(rbCode[at + k..])
    {
      rbCode[at + k] := bytes[k];
    }
  }

  /** The copies and the exit jump stay in the buffer: what the loop must not do without. */
  predicate InBuffer(cs: seq<Copied>) { Within(cs, 0, RB_CODE) && 0 <= Cursor(cs, 0) && Cursor(cs, 0) + SIZE_OF_EXIT <= RB_CODE }

  /** Without LOOP or JCXZ out of range that is the measured condition. */
  lemma InBufferAsMeasured(code: seq<byte>, src: int, dst: int, dst2: int)
    requires Forward(Displaced(code, src, dst, 0, 0)) && Forward(Displaced(code, src, dst2, 0, 0))
    ensures InBuffer(Displaced(code, src, dst, 0, 0)) <==> Cursor(Displaced(code, src, dst2, 0, 0), 0) <= RB_CODE - SIZE_OF_EXIT
  {
    hide Displaced, Forward, GrowsWell, Within, Cursor;
    var cs := Displaced(code, src, dst, 0, 0);
    FitsAsMeasured(code, src, dst, dst2);
    DisplacedGrow(code, src, dst, 0, 0);
    SameLength(code, src, dst, dst2, 0, 0);
    ForwardWithin(cs, 0);
    if Cursor(cs, 0) + SIZE_OF_EXIT <= RB_CODE { WithinMore(cs, 0, RB_CODE - SIZE_OF_EXIT, RB_CODE); }
  }

  /** What the loop still has to copy stays in the buffer and ends at `last`. */
  predicate Ahead(cs: seq<Copied>, at: int, last: int) {
    Within(cs, at, RB_CODE) && Cursor(cs, at) == last && 0 <= last && last + SIZE_OF_EXIT <= RB_CODE
  }

  lemma LoopStep(buf: seq<byte>, cs: seq<Copied>, at: int, last: int)
    requires Ahead(cs, at, last) && cs != [] && |buf| == RB_CODE
    ensures var c := cs[0];
      && 0 <= at && at + |c.bytes| <= RB_CODE && Ahead(cs[1..], at + Step(c), last) && 0 <= at + Step(c)
      && Laid(buf, cs, at) == Laid(buf[..at] + c.bytes + buf[at + |c.bytes|..], cs[1..], at + Step(c))
      && Read(cs) == c.cbSrc + Read(cs[1..])
  {
    hide Laid;
    LaidStep(buf, cs, at);
  }

  lemma LaidStep(buf: seq<byte>, cs: seq<Copied>, at: int)
    requires cs != [] && 0 <= at && at + |cs[0].bytes| <= |buf|
    ensures Laid(buf, cs, at) == Laid(buf[..at] + cs[0].bytes + buf[at + |cs[0].bytes|..], cs[1..], at + Step(cs[0]))
  {}

  lemma LoopEnds(buf: seq<byte>, at: int, last: int)
    requires Ahead([], at, last)
    ensures at == last && Laid(buf, [], at) == buf && Read([]) == 0
  {}

  lemma StepForward(c: Copied)
    requires GrowsWell(c) && c.extra >= 0
    ensures c.cbSrc >= 1 && 0 <= |c.bytes| <= Step(c)
  {}

  /** Copies that only move forward leave the bytes behind the cursor as they were. */
  lemma {:induction false} BehindCursor(buf: seq<byte>, cs: seq<Copied>, at: int)
    requires Forward(cs) && (forall c | c in cs :: GrowsWell(c)) && Within(cs, at, |buf|) && 0 <= at && Cursor(cs, at) <= |buf|
    ensures at <= Cursor(cs, at) && Laid(buf, cs, at)[Cursor(cs, at)..] == buf[Cursor(cs, at)..]
    decreases |cs|
  {
    if cs != [] {
      var c, last := cs[0], Cursor(cs, at);
      assert c in cs;
      StepForward(c);
      hide GrowsWell, Step, Laid;
      var next := buf[..at] + c.bytes + buf[at + |c.bytes|..];
      LaidStep(buf, cs, at);
      BehindCursor(next, cs[1..], at + Step(c));
      assert next[last..] == buf[last..];
    }
  }

  /** The copy loop, in place, and the jump through `pbRemain` behind it; `exit` is its six bytes. */
  method FillCode(rbCode: array<byte>, code: seq<byte>, src: int, dst: int, exit: seq<byte>) returns (cbTarget: nat, cbCode: nat)
    requires rbCode.Length == RB_CODE && |exit| == SIZE_OF_EXIT && InBuffer(Displaced(code, src, dst, 0, 0))
    modifies rbCode
    ensures var cs := Displaced(code, src, dst, 0, 0); var laid := Laid(old(rbCode[..]), cs, 0);
      && cbTarget == Read(cs) && cbCode == Cursor(cs, 0) && cbCode + SIZE_OF_EXIT <= RB_CODE
      && rbCode[..] == laid[..cbCode] + exit + laid[cbCode + SIZE_OF_EXIT..]
      && (Forward(cs) ==> laid[cbCode..] == old(rbCode[cbCode..]))
  {
    hide CopyInstruction, EndsFunction, GrowsWell, Forward, Laid, Cursor, Read, Displaced, Within, Ahead, Step;
    ghost var cs, before := Displaced(code, src, dst, 0, 0), rbCode[..];
    ghost var all, laid, read, last := cs, Laid(rbCode[..], cs, 0), Read(cs), Cursor(cs, 0);
    LoopStarts(cs);
    cbTarget, cbCode := 0, 0;
    var over := false;
    while cbTarget < SIZE_OF_JMP && cbTarget <= |code| && !over
      invariant cs == if over then [] else Displaced(code, src, dst, cbTarget, cbCode)
      invariant Laid(rbCode[..], cs, cbCode) == laid && cbTarget + Read(cs) == read && Ahead(cs, cbCode, last)
      decreases SIZE_OF_JMP - cbTarget, !over
    {
      var pbOp := code[cbTarget..];
      var c := CopyInstruction(pbOp, src + cbTarget, dst + cbCode);
      if c.None? {
        NothingMore(code, src, dst, cbTarget, cbCode);
        over := true;
      } else {
        NextDisplaced(code, src, dst, cbTarget, cbCode);
        ReadsSome(c.value);
        LoopStep(rbCode[..], cs, cbCode, last);
        Put(rbCode, cbCode, c.value.bytes);
        cbTarget := cbTarget + c.value.cbSrc;
        cbCode := cbCode + Step(c.value);
        over := EndsFunction(pbOp);
        cs := cs[1..];
      }
    }
    if !over { NothingMore(code, src, dst, cbTarget, cbCode); }
    LoopEnds(rbCode[..], cbCode, last);
    Put(rbCode, cbCode, exit);
    if Forward(all) {
      DisplacedGrow(code, src, dst, 0, 0);
      ForwardTail(before, all);
    }
  }

  lemma LoopStarts(cs: seq<Copied>)
    requires InBuffer(cs)
    ensures Ahead(cs, 0, Cursor(cs, 0))
  {}

  lemma ForwardTail(buf: seq<byte>, cs: seq<Copied>)
    requires Forward(cs) && (forall c | c in cs :: GrowsWell(c)) && InBuffer(cs) && |buf| == RB_CODE
    ensures Laid(buf, cs, 0)[Cursor(cs, 0)..] == buf[Cursor(cs, 0)..]
  {
    hide GrowsWell, Forward, Laid;
    BehindCursor(buf, cs, 0);
  }
}
