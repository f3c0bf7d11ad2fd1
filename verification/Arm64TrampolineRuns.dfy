/** Running an ARM64 trampoline is running the displaced instructions and going on after them
  * (detours/src/detours.cpp:2168-2315, 1009-1030). */
module Arm64TrampolineRuns {
  import opened Arm64
  import opened Arm64Encoding
  import opened Arm64Copy
  import opened Arm64Meaning
  import opened Arm64Bits
  import opened Arm64Relocation
  import opened Arm64Simulation
  import opened Arm64Trampoline

  // --------------------------------------------------------- The two machines

  /** Equal but for the scratch register. */
  ghost predicate SameButX17(a: Core, b: Core) { SetX(a, X17, 0) == SetX(b, X17, 0) }

  ghost predicate SameOutcome(a: Outcome, b: Outcome) {
    SameButX17(a.core, b.core) && (a.Next? <==> b.Next?) && (a.Goto? ==> a.target == b.target)
  }

  /** The instruction neither reads x17 nor lets it matter. */
  ghost predicate IgnoresX17(other: OtherSemantics, i: Instr) {
    forall a: Core, b: Core, pc: Addr | SameButX17(a, b) :: SameOutcome(Exec(other, i, pc, a), Exec(other, i, pc, b))
  }

  /** The reference: the displaced instructions, executed at their own addresses up to the first
    * transfer. A call returns to the copy of the instruction after it. */
  function DisplacedRun(other: OtherSemantics, ds: seq<Word>, src: Addr, dst: Addr, mem: Memory, c: Core): State
    decreases |ds|
  {
    if ds == [] then State(src, c)
    else
      var i, end := Decode(ds[0]), End(dst, CopyWords(src, dst, ds[0], mem));
      match Exec(other, i, src, c)
      case Next(c') => DisplacedRun(other, ds[1..], Plus(src, 4), end, mem, c')
      case Goto(t, c') => State(t, if Links(i) then SetX(c', LR, end) else c')
  }

  predicate FallsThrough(other: OtherSemantics, ds: seq<Word>, src: Addr, c: Core)
    decreases |ds|
  {
    ds == [] ||
    match Exec(other, Decode(ds[0]), src, c)
    case Next(c') => FallsThrough(other, ds[1..], Plus(src, 4), c')
    case Goto(_, _) => false
  }

  // ------------------------------------------------------------- Hypotheses

  /** Every displaced instruction can be moved, and once x17 has been used as scratch no later one
    * depends on it. */
  ghost predicate Movable(other: OtherSemantics, ds: seq<Word>, src: Addr, dst: Addr, mem: Memory, dirty: bool)
    decreases |ds|
  {
    ds == [] ||
    (var i := Decode(ds[0]);
     && Allocated(ds[0]) && Relocatable(i, src, dst)
     && (dirty ==> IgnoresX17(other, i))
     && Movable(other, ds[1..], Plus(src, 4), End(dst, CopyWords(src, dst, ds[0], mem)), mem,
                dirty || UsesX17(i, src, dst)))
  }

  /** The trampoline's words and its pool entry are in memory. */
  predicate Installed(m: Memory, tramp: Addr, words: seq<Word>, remain: Addr) {
    CodeAt(m, tramp, words) && Load64(m, PoolAddress(tramp)) == remain
  }

  /** Along the run the displaced code does not overwrite its own trampoline, and the literals it
    * loads are those the relocator saw. */
  predicate Calm(other: OtherSemantics, ds: seq<Word>, src: Addr, copied: Memory, tramp: Addr, words: seq<Word>,
                 remain: Addr, c: Core)
    decreases |ds|
  {
    && Installed(c.mem, tramp, words, remain)
    && (ds != [] ==>
          && LiteralStable(Decode(ds[0]), src, copied, c.mem)
          && var o := Exec(other, Decode(ds[0]), src, c);
             o.Next? ==> Calm(other, ds[1..], Plus(src, 4), copied, tramp, words, remain, o.core))
  }

  // ---------------------------------------------------------- The final jump

  lemma PoolDistance(tramp: Addr, off: bv64)
    ensures Distance(Plus(tramp, off), PoolAddress(tramp)) == 120 - off
  {
    assert Plus(tramp, off) == tramp + off;
    assert PoolAddress(tramp) == tramp + 120;
    assert Distance(tramp + off, tramp + 120) == (tramp + 120) - (tramp + off);
  }

  lemma PoolReach(off: bv64)
    requires off <= 72 && Aligned(off)
    ensures 120 - off <= 120 && Aligned(120 - off)
  {}

  lemma JumpRuns(other: OtherSemantics, tramp: Addr, off: bv64, c: Core, remain: Addr)
    requires off <= 72 && Aligned(off)
    requires CodeAt(c.mem, Plus(tramp, off), JumpWords(tramp, Plus(tramp, off)))
    requires Load64(c.mem, PoolAddress(tramp)) == remain
    ensures Run(other, State(Plus(tramp, off), c), 2) == State(remain, SetX(c, X17, remain))
  {
    hide Decode, Plus, Distance, Load32, Load64, JumpLoad, CodeAt, PoolAddress, Step, Aligned;
    var a := Plus(tramp, off);
    var ws := JumpWords(tramp, a);
    PoolDistance(tramp, off);
    PoolReach(off);
    JumpLoadDecodes(120 - off);
    JumpBrDecodes();
    StepAt(other, ws, a, c);
    AddBack(a, PoolAddress(tramp));
    var c1 := SetX(c, X17, remain);
    assert Step(other, State(a, c)) == State(Plus(a, 4), c1);
    assert ws[1..] == [JUMP_BR];
    StepAt(other, [JUMP_BR], Plus(a, 4), c1);
    SetXTwice(c, X17, remain, 0);
    assert Step(other, State(Plus(a, 4), c1)) == State(remain, c1);
    RunTwo(other, State(a, c));
  }

  lemma RunTwo(other: OtherSemantics, s: State)
    ensures Run(other, s, 2) == Step(other, Step(other, s))
  {
    hide Step;
    assert Run(other, s, 2) == Run(other, Step(other, s), 1);
    assert Run(other, Step(other, s), 1) == Run(other, Step(other, Step(other, s)), 0);
  }

  // ------------------------------------------------------- One instruction

  lemma SameSym(a: Core, v: bv64)
    ensures SameButX17(SetX(a, X17, v), a)
  {
    SetXTwice(a, X17, v, 0);
  }

  lemma SameThroughX17(a: Core, b: Core, v: bv64)
    requires SameButX17(a, b)
    ensures SameButX17(SetX(a, X17, v), b)
  {
    SetXTwice(a, X17, v, 0);
  }

  lemma SameThroughLink(a: Core, b: Core, v: bv64)
    requires SameButX17(a, b)
    ensures SameButX17(SetX(a, LR, v), SetX(b, LR, v))
  {
    SetXApart(a, 0, v);
    SetXApart(b, 0, v);
  }

  lemma SameAdjust(i: Instr, src: Addr, dst: Addr, end: Addr, a: Core, b: Core)
    requires SameButX17(a, b)
    ensures SameButX17(Adjust(i, src, dst, end, a), if Links(i) then SetX(b, LR, end) else b)
    ensures !UsesX17(i, src, dst) && !Links(i) ==> Adjust(i, src, dst, end, a) == a
    ensures a.mem == b.mem
  {
    hide InRange, Plus, SameButX17, SetX;
    SameMemory(a, b);
    if Links(i) {
      SameThroughLink(a, b, end);
      if UsesX17(i, src, dst) { SameThroughX17(SetX(a, LR, end), SetX(b, LR, end), Target(src, i)); }
    } else if UsesX17(i, src, dst) {
      SameThroughX17(a, b, Target(src, i));
    }
  }

  lemma SameMemory(a: Core, b: Core)
    requires SameButX17(a, b)
    ensures a.mem == b.mem
  {}

  lemma LinksTransfer(other: OtherSemantics, i: Instr, pc: Addr, c: Core)
    requires Links(i)
    ensures Exec(other, i, pc, c).Goto?
  {}

  /** One displaced instruction in the trampoline against the same instruction at its own address. */
  lemma InstructionRuns(other: OtherSemantics, w: Word, src: Addr, dst: Addr, copied: Memory, co: Core, ct: Core, dirty: bool)
    returns (n: nat)
    requires Aligned(src) && Aligned(dst) && Allocated(w) && Relocatable(Decode(w), src, dst)
    requires LiteralStable(Decode(w), src, copied, co.mem)
    requires CodeAt(ct.mem, dst, CopyWords(src, dst, w, copied))
    requires SameButX17(ct, co) && (!dirty ==> ct == co) && (dirty ==> IgnoresX17(other, Decode(w)))
    ensures var i, end := Decode(w), End(dst, CopyWords(src, dst, w, copied));
            var o := Exec(other, i, src, co);
            var t := Run(other, State(dst, ct), n);
            && t.pc == (if o.Next? then end else o.target)
            && SameButX17(t.core, if Links(i) then SetX(o.core, LR, end) else o.core)
            && (!dirty && !UsesX17(i, src, dst) && !Links(i) ==> t.core == o.core)
  {
    hide Decode, Exec, Plus, ExecSeq, CopyWords, Relocatable, LiteralStable, CodeAt, Adjust, Allocated, Aligned, UsesX17,
         SameButX17, Run;
    var i, ws := Decode(w), CopyWords(src, dst, w, copied);
    var end := End(dst, ws);
    SameMemory(ct, co);
    RelocationSimulates(other, src, dst, w, copied, ct);
    CopyWordsQuiet(src, dst, w, copied);
    n := SeqRuns(other, ws, dst, ct);
    var ot, oo := Exec(other, i, src, ct), Exec(other, i, src, co);
    assert SameOutcome(ot, oo) by {
      if !dirty { SameItself(ot.core); }
    }
    SameAdjust(i, src, dst, end, ot.core, oo.core);
  }

  lemma SameItself(a: Core)
    ensures SameButX17(a, a)
  {}

  // --------------------------------------------------------- All of them

  function Budget(n: nat): bv64
    requires n <= 3
  {
    if n == 3 then 0 else if n == 2 then 24 else if n == 1 then 48 else 72
  }

  lemma SpendBudget(off: bv64, d: bv64, n: nat)
    requires 1 <= n <= 3 && off <= Budget(n) && Aligned(off) && d <= 24 && Aligned(d)
    ensures Plus(off, d) <= Budget(n - 1) && Aligned(Plus(off, d))
  {
    if n == 3 {} else if n == 2 {} else {}
  }

  lemma BudgetFits(off: bv64)
    requires off <= Budget(0)
    ensures off <= 72
  {}

  /** The trampoline from the copy of any displaced instruction on: it reaches the place the displaced
    * code transfers to, or `remain` when that code runs off its end, in the same state but for x17. */
  lemma {:induction false} PrologueRuns(other: OtherSemantics, ds: seq<Word>, src: Addr, dst: Addr, off: bv64,
                                        copied: Memory, tramp: Addr, pre: seq<Word>, words: seq<Word>, remain: Addr,
                                        co: Core, ct: Core, dirty: bool)
    returns (n: nat)
    requires |ds| <= 3 && Aligned(src) && Aligned(dst) && Aligned(off)
    requires dst == Plus(tramp, off) == End(tramp, pre) && off <= Budget(|ds|)
    requires var code := CopyAll(ds, src, dst, copied); words == pre + (code + JumpWords(tramp, End(dst, code)))
    requires Movable(other, ds, src, dst, copied, dirty)
    requires Calm(other, ds, src, copied, tramp, words, remain, co)
    requires SameButX17(ct, co) && (!dirty ==> ct == co)
    ensures var t, d := Run(other, State(dst, ct), n), DisplacedRun(other, ds, src, dst, copied, co);
            && t.pc == (if FallsThrough(other, ds, src, co) then remain else d.pc)
            && SameButX17(t.core, d.core)
    decreases |ds|
  {
    hide Decode, Exec, Plus, ExecSeq, CopyWords, Relocatable, LiteralStable, CodeAt, Allocated, Aligned, UsesX17,
         SameButX17, Load64, Links, JumpWords, Budget, Run, Step, IgnoresX17, CopyAll, DisplacedRun, FallsThrough, End;
    if ds == [] {
      NothingRuns(other, src, dst, off, copied, tramp, pre, words, remain, co, ct);
      n := 2;
    } else {
      var i, ws := Decode(ds[0]), CopyWords(src, dst, ds[0], copied);
      FirstInstalled(ds, src, dst, copied, tramp, pre, words, ct.mem, co, ct);
      n := InstructionRuns(other, ds[0], src, dst, copied, co, ct, dirty);
      UnfoldRun(other, ds, src, dst, copied, co);
      var o, t1 := Exec(other, i, src, co), Run(other, State(dst, ct), n);
      if o.Next? {
        if Links(i) { LinksTransfer(other, i, src, co); }
        var n2 := NextRuns(other, ds, src, dst, off, copied, tramp, pre, words, remain, o.core, t1.core, dirty);
        RunAdd(other, State(dst, ct), n, n2);
        n := n + n2;
      }
    }
  }

  lemma UnfoldRun(other: OtherSemantics, ds: seq<Word>, src: Addr, dst: Addr, mem: Memory, c: Core)
    requires ds != []
    ensures var i, end := Decode(ds[0]), End(dst, CopyWords(src, dst, ds[0], mem));
            var o := Exec(other, i, src, c);
            && DisplacedRun(other, ds, src, dst, mem, c) ==
               (if o.Next? then DisplacedRun(other, ds[1..], Plus(src, 4), end, mem, o.core)
                else State(o.target, if Links(i) then SetX(o.core, LR, end) else o.core))
            && FallsThrough(other, ds, src, c) == (o.Next? && FallsThrough(other, ds[1..], Plus(src, 4), o.core))
  {
    hide Decode, Exec, Plus, CopyWords, SetX, Links, End;
  }

  lemma FirstInstalled(ds: seq<Word>, src: Addr, dst: Addr, copied: Memory, tramp: Addr, pre: seq<Word>, words: seq<Word>,
                       m: Memory, co: Core, ct: Core)
    requires ds != [] && dst == End(tramp, pre) && SameButX17(ct, co) && m == ct.mem && CodeAt(co.mem, tramp, words)
    requires var code := CopyAll(ds, src, dst, copied); words == pre + (code + JumpWords(tramp, End(dst, code)))
    ensures CodeAt(m, dst, CopyWords(src, dst, ds[0], copied))
  {
    hide Plus, CopyWords, CodeAt, SameButX17, JumpWords, End;
    var ws := CopyWords(src, dst, ds[0], copied);
    var rest := CopyAll(ds[1..], Plus(src, 4), End(dst, ws), copied);
    var jump := JumpWords(tramp, End(dst, CopyAll(ds, src, dst, copied)));
    SameMemory(ct, co);
    CodeAtAppend(m, tramp, pre, (ws + rest) + jump);
    assert (ws + rest) + jump == ws + (rest + jump);
    CodeAtAppend(m, dst, ws, rest + jump);
  }

  lemma NothingRuns(other: OtherSemantics, src: Addr, dst: Addr, off: bv64, copied: Memory, tramp: Addr, pre: seq<Word>,
                    words: seq<Word>, remain: Addr, co: Core, ct: Core)
    requires Aligned(off) && dst == Plus(tramp, off) == End(tramp, pre) && off <= Budget(0)
    requires var code := CopyAll([], src, dst, copied); words == pre + (code + JumpWords(tramp, End(dst, code)))
    requires Installed(co.mem, tramp, words, remain) && SameButX17(ct, co)
    ensures var t := Run(other, State(dst, ct), 2);
            && t.pc == remain && SameButX17(t.core, DisplacedRun(other, [], src, dst, copied, co).core)
            && FallsThrough(other, [], src, co)
  {
    hide Plus, CodeAt, SameButX17, JumpWords, Load64, Run, Budget, Aligned;
    var jump := JumpWords(tramp, dst);
    assert CopyAll([], src, dst, copied) + jump == jump;
    SameMemory(ct, co);
    CodeAtAppend(ct.mem, tramp, pre, jump);
    BudgetFits(off);
    JumpRuns(other, tramp, off, ct, remain);
    SameThroughX17(ct, co, remain);
  }

  /** The induction step of `PrologueRuns`, once the first instruction has fallen through. */
  lemma {:induction false} NextRuns(other: OtherSemantics, ds: seq<Word>, src: Addr, dst: Addr, off: bv64, copied: Memory,
                                    tramp: Addr, pre: seq<Word>, words: seq<Word>, remain: Addr, co: Core, ct: Core,
                                    dirty: bool)
    returns (n: nat)
    requires 1 <= |ds| <= 3 && Aligned(src) && Aligned(dst) && Aligned(off)
    requires dst == Plus(tramp, off) == End(tramp, pre) && off <= Budget(|ds|)
    requires var code := CopyAll(ds, src, dst, copied); words == pre + (code + JumpWords(tramp, End(dst, code)))
    requires Movable(other, ds, src, dst, copied, dirty)
    requires Calm(other, ds[1..], Plus(src, 4), copied, tramp, words, remain, co)
    requires SameButX17(ct, co) && (!dirty && !UsesX17(Decode(ds[0]), src, dst) ==> ct == co)
    ensures var end := End(dst, CopyWords(src, dst, ds[0], copied));
            var t, d := Run(other, State(end, ct), n), DisplacedRun(other, ds[1..], Plus(src, 4), end, copied, co);
            && t.pc == (if FallsThrough(other, ds[1..], Plus(src, 4), co) then remain else d.pc)
            && SameButX17(t.core, d.core)
    decreases |ds|, 0
  {
    hide Decode, Exec, Plus, ExecSeq, CopyWords, Relocatable, LiteralStable, CodeAt, Allocated, Aligned, UsesX17,
         SameButX17, Load64, Links, JumpWords, Budget, Run, Step, IgnoresX17, Calm, DisplacedRun, FallsThrough, End;
    var ws := CopyWords(src, dst, ds[0], copied);
    var end := End(dst, ws);
    var rest := CopyAll(ds[1..], Plus(src, 4), end, copied);
    var off' := Advance(|ds|, src, dst, off, tramp, pre, ds[0], copied);
    EndAppend(dst, ws, rest);
    assert pre + ((ws + rest) + JumpWords(tramp, End(end, rest))) == (pre + ws) + (rest + JumpWords(tramp, End(end, rest)));
    n := PrologueRuns(other, ds[1..], Plus(src, 4), end, off', copied, tramp, pre + ws, words, remain, co, ct,
                      dirty || UsesX17(Decode(ds[0]), src, dst));
  }

  /** The addresses after one more displaced instruction. */
  lemma Advance(left: nat, src: Addr, dst: Addr, off: bv64, tramp: Addr, pre: seq<Word>, w: Word, copied: Memory)
    returns (off': bv64)
    requires 1 <= left <= 3 && Aligned(src) && Aligned(dst) && Aligned(off)
    requires dst == Plus(tramp, off) == End(tramp, pre) && off <= Budget(left)
    ensures var ws := CopyWords(src, dst, w, copied);
            && End(dst, ws) == Plus(tramp, off') == End(tramp, pre + ws)
            && Aligned(Plus(src, 4)) && Aligned(End(dst, ws)) && Aligned(off') && off' <= Budget(left - 1)
  {
    hide *;
    var ws := CopyWords(src, dst, w, copied);
    CopyWordsLength(src, dst, w, copied);
    var d := EndOffset(dst, ws);
    SpendBudget(off, d, left);
    PlusAssociates(tramp, off, d);
    AlignedSum(dst, d);
    FourAligned();
    AlignedSum(src, 4);
    EndAppend(tramp, pre, ws);
    off' := Plus(off, d);
  }

  lemma FourAligned()
    ensures Aligned(4)
  {}

  // ------------------------------------------------------------ The theorem

  lemma RetDecodes(w: Word)
    requires w & 0xffff_fc1f == 0xd65f_0000
    ensures Decode(w).Ret?
  {}

  lemma BDecodes(w: Word)
    requires w & 0xfc00_0000 == 0x1400_0000
    ensures IsBranchImm(w)
  {}

  lemma EndsFunctionTransfers(other: OtherSemantics, w: Word, pc: Addr, c: Core)
    requires EndsFunction(w)
    ensures Exec(other, Decode(w), pc, c).Goto?
  {
    hide Decode, Plus, IsBranchImm;
    if w & 0xffff_fc1f == 0xd65f_0000 {
      RetDecodes(w);
    } else {
      BDecodes(w);
      DecodeBranch(w);
    }
  }

  /** Displaced code that falls through was copied up to the full count. */
  lemma {:induction false} FallingThrough(other: OtherSemantics, copied: Memory, src: Addr, dst: Addr, left: nat, c: Core)
    requires FallsThrough(other, Displaced(copied, src, left), src, c)
    ensures |Displaced(copied, src, left)| == left
    ensures DisplacedRun(other, Displaced(copied, src, left), src, dst, copied, c).pc
         == End(src, Displaced(copied, src, left))
    decreases left
  {
    hide Decode, Exec, Plus, CopyWords, EndsFunction, Load32, Links;
    var ds := Displaced(copied, src, left);
    if left > 0 {
      if EndsFunction(ds[0]) {
        EndsFunctionTransfers(other, ds[0], src, c);
      } else {
        assert ds[1..] == Displaced(copied, Plus(src, 4), left - 1);
        var o := Exec(other, Decode(ds[0]), src, c);
        FallingThrough(other, copied, Plus(src, 4), End(dst, CopyWords(src, dst, ds[0], copied)), left - 1, o.core);
      }
    }
  }

  lemma TwelveBytes(a: Addr, ws: seq<Word>)
    requires |ws| == 3
    ensures End(a, ws) == Plus(a, 12)
  {
    hide Plus, End;
    PlusZero(a);
    assert Bytes(0) == 0;
    EndBy(a, ws, a, 0);
    BytesThree();
  }

  lemma BytesThree()
    ensures Bytes(3) == 12
  {}

  /** The reference run is the displaced words in order; only a call's return address is moved. */
  lemma {:induction false} ReferenceIsInOrder(other: OtherSemantics, ds: seq<Word>, src: Addr, dst: Addr, mem: Memory, c: Core)
    ensures var d, e := DisplacedRun(other, ds, src, dst, mem, c), ExecSeq(other, ds, src, c);
            d.pc == e.pc && SetX(d.core, LR, 0) == SetX(e.core, LR, 0)
    decreases |ds|
  {
    hide Decode, Exec, Plus, CopyWords, Links, SetX;
    if ds != [] {
      var o, end := Exec(other, Decode(ds[0]), src, c), End(dst, CopyWords(src, dst, ds[0], mem));
      if o.Next? {
        ReferenceIsInOrder(other, ds[1..], Plus(src, 4), end, mem, o.core);
      } else {
        SetXTwice(o.core, LR, end, 0);
      }
    }
  }

  /** The words of the trampoline for the function at `target`: the copies, then the jump back. */
  function TrampolineWords(copied: Memory, target: Addr, tramp: Addr): seq<Word> {
    var code := CopyAll(Displaced(copied, target, 3), target, tramp, copied);
    code + JumpWords(tramp, End(tramp, code))
  }

  /** For any function prologue: entering the trampoline leads to the same place, in the same state
    * but for x17, as running the displaced instructions at their own addresses and continuing at
    * `pbRemain`, twelve bytes into the function. */
  lemma TrampolineSimulates(other: OtherSemantics, copied: Memory, target: Addr, tramp: Addr, c: Core) returns (n: nat)
    requires Aligned(target) && Aligned(tramp)
    requires Movable(other, Displaced(copied, target, 3), target, tramp, copied, false)
    requires Calm(other, Displaced(copied, target, 3), target, copied, tramp, TrampolineWords(copied, target, tramp),
                  Plus(target, 12), c)
    ensures var t := Run(other, State(tramp, c), n);
            var d := DisplacedRun(other, Displaced(copied, target, 3), target, tramp, copied, c);
            t.pc == d.pc && SameButX17(t.core, d.core)
    ensures FallsThrough(other, Displaced(copied, target, 3), target, c) ==> Run(other, State(tramp, c), n).pc == Plus(target, 12)
  {
    hide Plus, Decode, Exec, CopyAll, JumpWords, Run, DisplacedRun, FallsThrough, Movable, Calm, SameButX17, Displaced,
         Aligned, Budget, End;
    var ds := Displaced(copied, target, 3);
    StartOfTrampoline(ds, tramp);
    SameItself(c);
    assert TrampolineWords(copied, target, tramp) == [] + TrampolineWords(copied, target, tramp);
    n := PrologueRuns(other, ds, target, tramp, 0, copied, tramp, [], TrampolineWords(copied, target, tramp),
                      Plus(target, 12), c, c, false);
    if FallsThrough(other, ds, target, c) {
      FallingThrough(other, copied, target, tramp, 3, c);
      TwelveBytes(target, ds);
    }
  }

  lemma StartOfTrampoline(ds: seq<Word>, tramp: Addr)
    requires |ds| <= 3
    ensures tramp == Plus(tramp, 0) == End(tramp, []) && Aligned(0) && 0 <= Budget(|ds|)
  {
    hide Plus;
    PlusZero(tramp);
  }
}
