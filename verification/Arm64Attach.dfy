/** The part of `DetourAttachEx` that fills an ARM64 trampoline from the function it displaces
  * (detours/src/detours.cpp:2136-2315). */
module Arm64Attach {
  import opened Arm64
  import opened Arm64Copy
  import opened Arm64Encoding
  import opened Arm64Bits
  import opened Arm64Relocation
  import opened Arm64Disasm
  import opened Arm64Trampoline
  import opened Arm64TrampolineRuns

  const RB_CODE_WORDS := 32
  const SIZE_OF_JMP := 12
  const NO_ERROR := 0
  const ERROR_INVALID_BLOCK := 9
  const BREAK_WORD: Word := 0xd410_0000 | (0xf000 << 5)

  /** The address of word `at` of a buffer at `a`. */
  function AddressOf(a: Addr, at: nat): Addr { Plus(a, Bytes(at)) }

  function Low(a: Addr): Word { Low32(a) }

  function High(a: Addr): Word { Low32(a >> 32) }

  /** `rbCode` once filled: the copies and the jump, break instructions, the pool entry. */
  ghost predicate Filled(rbCode: seq<Word>, words: seq<Word>, remain: Addr) {
    && |rbCode| == RB_CODE_WORDS && |words| <= 30
    && rbCode[..|words|] == words
    && (forall k | |words| <= k < 30 :: rbCode[k] == 0xd41e_0000)
    && rbCode[30] == Low(remain) && rbCode[31] == High(remain)
  }

  /** The source words of the displaced range, including padding that is not copied. */
  function RestoreWords(mem: Memory, a: Addr, n: nat): seq<Word>
    decreases n
  {
    if n == 0 then [] else [Load32(mem, a)] + RestoreWords(mem, Plus(a, 4), n - 1)
  }

  /** Whether twelve bytes can be displaced: three instructions, or fewer up to the end of the function
    * and then padding. */
  predicate Enough(mem: Memory, target: Addr) {
    var ds := Displaced(mem, target, 3);
    FillersFrom(mem, AddressOf(target, |ds|), 3 - |ds|)
  }

  // ------------------------------------------------------- What can be displaced

  /** RET or B: the function ends here. */
  predicate Ends(i: Instr) { i.Ret? || (i.B? && !i.link) }

  /** The function's first `n` words, one to three, can be displaced: none before the last ends it, the last
    * does if they are fewer than three, and NOP or zero words make up the twelve bytes.
    */
  predicate CanDisplace(mem: Memory, target: Addr, n: nat) {
    && 1 <= n <= 3
    && (forall k | 0 <= k < n - 1 :: !Ends(Decode(Load32(mem, AddressOf(target, k)))))
    && (n < 3 ==> Ends(Decode(Load32(mem, AddressOf(target, n - 1)))))
    && (forall k | n <= k < 3 :: Load32(mem, AddressOf(target, k)) == 0xd503_201f || Load32(mem, AddressOf(target, k)) == 0)
  }

  lemma NotBByForm(w: Word)
    requires IsBranchImm(w) && w & 0xfc00_0000 != 0x1400_0000
    ensures w & 0x8000_0000 != 0
  {}

  lemma EndsFunctionIs(w: Word)
    ensures EndsFunction(w) <==> Ends(Decode(w))
  {
    if w & 0xffff_fc1f == 0xd65f_0000 {
      RetDecodes(w);
    } else if w & 0xfc00_0000 == 0x1400_0000 {
      BDecodes(w);
      DecodeBranch(w);
      NoLinkByForm(w);
    } else {
      if IsBranchImm(w) { NotBByForm(w); }
      NoEnd(w);
    }
  }

  lemma NoLinkByForm(w: Word)
    requires w & 0xfc00_0000 == 0x1400_0000
    ensures w & 0x8000_0000 == 0
  {}

  lemma LiteralNoEnd(w: Word)
    requires IsLdrLiteral(w)
    ensures !Ends(DecodeLdrLiteral(w))
  {
    hide Offset19, Rd;
  }

  lemma RestNoEnd(w: Word)
    requires w & 0xffff_fc1f != 0xd65f_0000
    ensures !Ends(DecodeRest(w))
  {
    hide Rd, Rn;
  }

  lemma NoEnd(w: Word)
    requires w & 0xffff_fc1f != 0xd65f_0000 && (IsBranchImm(w) ==> w & 0x8000_0000 != 0)
    ensures !Ends(Decode(w))
  {
    hide IsPcRelAddress, IsBCond, IsCbz, IsTbz, IsLdrLiteral, IsBranchImm, Imm21, Offset19, Offset26, Offset14, Rd, PageBase, DecodeRest, DecodeLdrLiteral;
    RestNoEnd(w);
    if IsLdrLiteral(w) { LiteralNoEnd(w); }
  }

  // -------------------------------------------------------- Loop arithmetic

  lemma EndIsAddress(a: Addr, ws: seq<Word>)
    ensures End(a, ws) == AddressOf(a, |ws|)
  {
    hide Plus, End;
    PlusZero(a);
    assert Bytes(0) == 0;
    EndBy(a, ws, a, 0);
  }

  lemma AddressStep(a: Addr, at: nat, n: nat)
    ensures AddressOf(AddressOf(a, at), n) == AddressOf(a, at + n)
    ensures AddressOf(a, at + 1) == Plus(AddressOf(a, at), 4)
    ensures AddressOf(a, 0) == a
  {
    hide Plus;
    PlusZero(a);
    PlusAssociates(a, Bytes(at), 4);
    BytesAdd(at, n);
    PlusAssociates(a, Bytes(at), Bytes(n));
  }

  lemma {:induction false} BytesAdd(m: nat, n: nat)
    ensures Bytes(m + n) == Plus(Bytes(m), Bytes(n))
    decreases n
  {
    hide Plus;
    if n == 0 {
      PlusZero(Bytes(m));
      assert Bytes(0) == 0;
    } else {
      BytesAdd(m, n - 1);
      PlusAssociates(Bytes(m), Bytes(n - 1), 4);
      assert Bytes(m + n) == Plus(Bytes(m + n - 1), 4);
    }
  }

  lemma PoolIsWord30(tramp: Addr)
    ensures AddressOf(tramp, 30) == PoolAddress(tramp)
  {
    hide Plus;
    BytesAdd(6, 6);
    BytesAdd(12, 12);
    BytesAdd(24, 6);
    BytesSix();
    SumsTo120();
  }

  lemma BytesSix()
    ensures Bytes(6) == 24
  {
    assert Bytes(1) == 4;
    assert Bytes(2) == 8;
    assert Bytes(3) == 12;
    assert Bytes(4) == 16;
    assert Bytes(5) == 20;
  }

  lemma SumsTo120()
    ensures Plus(24, 24) == 48 && Plus(48, 48) == 96 && Plus(96, 24) == 120
  {}

  lemma NextAddress(a: Addr, k: nat)
    requires k > 0
    ensures AddressOf(a, k) == AddressOf(Plus(a, 4), k - 1)
  {
    hide Plus, AddressOf;
    AddressStep(a, 1, k - 1);
    AddressStep(a, 0, 1);
  }

  lemma DisplacedStep(mem: Memory, src: Addr, left: nat)
    requires left > 0
    ensures Displaced(mem, src, left)
         == [Load32(mem, src)] + if EndsFunction(Load32(mem, src)) then [] else Displaced(mem, Plus(src, 4), left - 1)
  {
    hide Plus, EndsFunction, Load32;
  }

  /** Taking one more word extends the displaced words by that word. */
  lemma {:induction false} DisplacedSplit(mem: Memory, src: Addr, k: nat, left: nat)
    requires k < left
    requires |Displaced(mem, src, k)| == k && (k > 0 ==> !EndsFunction(Displaced(mem, src, k)[k - 1]))
    ensures Displaced(mem, src, k + 1) == Displaced(mem, src, k) + [Load32(mem, AddressOf(src, k))]
    ensures EndsFunction(Load32(mem, AddressOf(src, k))) ==> Displaced(mem, src, left) == Displaced(mem, src, k + 1)
    decreases k
  {
    hide Plus, EndsFunction, Load32, AddressOf, Displaced;
    AddressStep(src, 0, 0);
    DisplacedStep(mem, src, k + 1);
    DisplacedStep(mem, src, left);
    if k == 0 {
      NothingDisplaced(mem, src);
      NothingDisplaced(mem, Plus(src, 4));
    } else {
      DisplacedStep(mem, src, k);
      if !EndsFunction(Load32(mem, src)) {
        DisplacedSplit(mem, Plus(src, 4), k - 1, left - 1);
        NextAddress(src, k);
        Regrouped([Load32(mem, src)], Displaced(mem, Plus(src, 4), k - 1), [Load32(mem, AddressOf(src, k))]);
      }
    }
  }

  lemma NothingDisplaced(mem: Memory, src: Addr)
    ensures Displaced(mem, src, 0) == []
  {}

  lemma Regrouped(s: seq<Word>, t: seq<Word>, u: seq<Word>)
    ensures s + (t + u) == (s + t) + u
  {}

  lemma CopyAllOne(w: Word, src: Addr, dst: Addr, mem: Memory)
    ensures CopyAll([w], src, dst, mem) == CopyWords(src, dst, w, mem)
  {
    hide Plus, CopyWords;
    var ws := CopyWords(src, dst, w, mem);
    assert [w][1..] == [];
    assert CopyAll([], Plus(src, 4), End(dst, ws), mem) == [];
  }

  lemma {:induction false} CopyAllSnoc(ds: seq<Word>, w: Word, src: Addr, dst: Addr, mem: Memory)
    ensures var code := CopyAll(ds, src, dst, mem);
            CopyAll(ds + [w], src, dst, mem) == code + CopyWords(AddressOf(src, |ds|), End(dst, code), w, mem)
    decreases |ds|
  {
    hide Plus, CopyWords, AddressOf, End;
    if ds == [] {
      AddressStep(src, 0, 0);
      assert [] + [w] == [w];
      CopyAllOne(w, src, dst, mem);
      EndOfNothing(dst);
    } else {
      var ws := CopyWords(src, dst, ds[0], mem);
      assert (ds + [w])[1..] == ds[1..] + [w];
      CopyAllSnoc(ds[1..], w, Plus(src, 4), End(dst, ws), mem);
      EndAppend(dst, ws, CopyAll(ds[1..], Plus(src, 4), End(dst, ws), mem));
      NextAddress(src, |ds|);
    }
  }

  lemma EndOfNothing(a: Addr)
    ensures End(a, []) == a
  {}

  lemma {:induction false} CopyAllLength(ds: seq<Word>, src: Addr, dst: Addr, mem: Memory)
    ensures |CopyAll(ds, src, dst, mem)| <= 6 * |ds|
    decreases |ds|
  {
    hide Plus, CopyWords;
    if ds != [] {
      CopyWordsLength(src, dst, ds[0], mem);
      CopyAllLength(ds[1..], Plus(src, 4), End(dst, CopyWords(src, dst, ds[0], mem)), mem);
    }
  }

  lemma {:induction false} FillersSplit(mem: Memory, a: Addr, need: nat)
    ensures FillersFrom(mem, a, need) <==>
            need == 0 || (IsFiller(Load32(mem, a)) && FillersFrom(mem, Plus(a, 4), need - 1))
  {}

  lemma {:induction false} RestoreSnoc(mem: Memory, a: Addr, n: nat)
    ensures RestoreWords(mem, a, n + 1) == RestoreWords(mem, a, n) + [Load32(mem, AddressOf(a, n))]
    decreases n
  {
    hide Plus, Load32, AddressOf;
    AddressStep(a, 0, 0);
    if n > 0 {
      RestoreSnoc(mem, Plus(a, 4), n - 1);
      NextAddress(a, n);
    }
  }

  /** The displaced words are those of the function up to the first that ends it. */
  lemma {:induction false} DisplacedWords(mem: Memory, src: Addr, left: nat)
    ensures var ds := Displaced(mem, src, left);
      && ds == RestoreWords(mem, src, |ds|) && (forall k | 0 <= k < |ds| :: ds[k] == Load32(mem, AddressOf(src, k)))
      && (forall k | 0 <= k < |ds| - 1 :: !EndsFunction(ds[k]))
      && (|ds| < left ==> ds != [] && EndsFunction(ds[|ds| - 1]))
    decreases left
  {
    hide Plus, EndsFunction, Load32, AddressOf, Displaced, RestoreWords;
    if left == 0 {
      NothingDisplaced(mem, src);
      assert RestoreWords(mem, src, 0) == [] by { RestoreNone(mem, src); }
    } else {
      DisplacedStep(mem, src, left);
      var ds, rest := Displaced(mem, src, left), if EndsFunction(Load32(mem, src)) then [] else Displaced(mem, Plus(src, 4), left - 1);
      AddressStep(src, 0, 0);
      RestoreStep(mem, src, |rest|);
      if EndsFunction(Load32(mem, src)) {
        RestoreNone(mem, Plus(src, 4));
      } else {
        DisplacedWords(mem, Plus(src, 4), left - 1);
        forall k | 1 <= k < |ds|
          ensures ds[k] == Load32(mem, AddressOf(src, k))
        {
          NextAddress(src, k);
        }
      }
    }
  }

  lemma RestoreNone(mem: Memory, a: Addr)
    ensures RestoreWords(mem, a, 0) == []
  {}

  lemma RestoreStep(mem: Memory, a: Addr, n: nat)
    ensures RestoreWords(mem, a, n + 1) == [Load32(mem, a)] + RestoreWords(mem, Plus(a, 4), n)
  {
    hide Load32, Plus;
  }

  lemma {:induction false} FillersAre(mem: Memory, a: Addr, need: nat)
    ensures FillersFrom(mem, a, need) <==> forall k | 0 <= k < need :: IsFiller(Load32(mem, AddressOf(a, k)))
    decreases need
  {
    hide Plus, IsFiller, Load32, AddressOf, FillersFrom;
    FillersSplit(mem, a, need);
    AddressStep(a, 0, 0);
    if need > 0 {
      FillersAre(mem, Plus(a, 4), need - 1);
      forall k | 1 <= k < need
        ensures AddressOf(a, k) == AddressOf(Plus(a, 4), k - 1)
      {
        NextAddress(a, k);
      }
      forall k | 0 <= k < need - 1
        ensures AddressOf(Plus(a, 4), k) == AddressOf(a, k + 1)
      {
        NextAddress(a, k + 1);
      }
    }
  }

  /** Fillers behind the displaced words are the words of the function from there on. */
  lemma FillersBehind(mem: Memory, target: Addr, n: nat)
    requires n <= 3
    ensures FillersFrom(mem, AddressOf(target, n), 3 - n) <==>
            forall k | n <= k < 3 :: IsFiller(Load32(mem, AddressOf(target, k)))
  {
    hide Load32, AddressOf, FillersFrom, IsFiller, Plus;
    FillersAre(mem, AddressOf(target, n), 3 - n);
    forall k | 0 <= k < 3 - n
      ensures AddressOf(AddressOf(target, n), k) == AddressOf(target, n + k)
    {
      AddressStep(target, n, k);
    }
    forall k | n <= k < 3
      ensures AddressOf(target, k) == AddressOf(AddressOf(target, n), k - n)
    {
      AddressStep(target, n, k - n);
    }
  }

  /** Twelve bytes can be displaced exactly if some number of words can, which is then the number of words
    * that are.
    */
  lemma CanDisplaceIs(mem: Memory, target: Addr, n: nat)
    ensures CanDisplace(mem, target, n) <==> Enough(mem, target) && n == |Displaced(mem, target, 3)|
  {
    hide Load32, AddressOf, FillersFrom, EndsFunction, Ends, Decode, Displaced, RestoreWords;
    var ds := Displaced(mem, target, 3);
    DisplacedWords(mem, target, 3);
    FillersBehind(mem, target, |ds|);
    forall k | 0 <= k < 3
      ensures EndsFunction(Load32(mem, AddressOf(target, k))) <==> Ends(Decode(Load32(mem, AddressOf(target, k))))
    {
      EndsFunctionIs(Load32(mem, AddressOf(target, k)));
    }
  }

  lemma EnoughIs(mem: Memory, target: Addr)
    ensures Enough(mem, target) <==> exists n :: CanDisplace(mem, target, n)
    ensures Enough(mem, target) ==> exists n :: CanDisplace(mem, target, n) && Displaced(mem, target, 3) == RestoreWords(mem, target, n)
  {
    hide CanDisplace, Enough, Displaced, RestoreWords;
    var n := |Displaced(mem, target, 3)|;
    CanDisplaceIs(mem, target, n);
    DisplacedWords(mem, target, 3);
    if !Enough(mem, target) {
      forall k: nat
        ensures !CanDisplace(mem, target, k)
      {
        CanDisplaceIs(mem, target, k);
      }
    }
  }

  // ------------------------------------------------------------ The trampoline

  class DETOUR_TRAMPOLINE {
    const rbCode: array<Word>
    var cbCode: nat
    var rbRestore: seq<Word>
    var cbRestore: nat
    var pbRemain: Addr
    var pbDetour: Addr

    constructor ()
      ensures rbCode.Length == RB_CODE_WORDS && fresh(rbCode)
    {
      rbCode := new Word[RB_CODE_WORDS](_ => 0xcccc_cccc);
      rbRestore := [];
      cbCode, cbRestore, pbRemain, pbDetour := 0, 0, 0, 0;
    }

    /** The loop that copies instructions until the jump fits or the function ends. */
    method CopyTarget(pbTarget: Addr, pbTrampoline: Addr, mem: Memory) returns (pbSrc: Addr, cbTarget: nat, at: nat)
      requires rbCode.Length == RB_CODE_WORDS
      modifies rbCode
      ensures var ds := Displaced(mem, pbTarget, 3);
              var code := CopyAll(ds, pbTarget, pbTrampoline, mem);
              && cbTarget == 4 * |ds| && pbSrc == AddressOf(pbTarget, |ds|)
              && at == |code| <= 18 && rbCode[..at] == code
    {
      hide Plus, CopyWords, CopyAll, Displaced, EndsFunction, Load32, AddressOf, End, BranchTarget;
      pbSrc, cbTarget, at := pbTarget, 0, 0;
      AddressStep(pbTarget, 0, 0);
      AddressStep(pbTrampoline, 0, 0);
      ghost var n := 0;
      StartsEmpty(mem, pbTarget, pbTrampoline);
      while cbTarget < SIZE_OF_JMP
        invariant 0 <= n <= 3 && cbTarget == 4 * n && pbSrc == AddressOf(pbTarget, n)
        invariant |Displaced(mem, pbTarget, n)| == n
        invariant n > 0 ==> !EndsFunction(Displaced(mem, pbTarget, n)[n - 1])
        invariant at == |CopyAll(Displaced(mem, pbTarget, n), pbTarget, pbTrampoline, mem)| <= 6 * n
        invariant rbCode[..at] == CopyAll(Displaced(mem, pbTarget, n), pbTarget, pbTrampoline, mem)
        decreases 3 - n
      {
        var pbOp := pbSrc;
        ghost var before := Displaced(mem, pbTarget, n);
        ghost var code := CopyAll(before, pbTarget, pbTrampoline, mem);
        ghost var w := Load32(mem, pbOp);
        DisplacedSplit(mem, pbTarget, n, 3);
        CopyAllSnoc(before, w, pbTarget, pbTrampoline, mem);
        EndIsAddress(pbTrampoline, code);
        CopyWordsLength(pbOp, AddressOf(pbTrampoline, at), w, mem);
        ghost var words := rbCode[..];
        var state := new CDetourDis();
        var target, lExtra;
        pbSrc, target, lExtra := state.CopyInstruction(rbCode, at, AddressOf(pbTrampoline, at), pbSrc, mem);
        AddressStep(pbTarget, n, 0);
        at := at + (4 + lExtra) / 4;
        cbTarget := cbTarget + 4;
        n := n + 1;
        if EndsFunction(Load32(mem, pbOp)) {
          break;
        }
      }
    }

    /** Consumes padding, without copying it, when the copied instructions are too short. */
    method SkipFiller(pbFrom: Addr, cbFrom: nat, mem: Memory) returns (cbTarget: nat)
      requires cbFrom % 4 == 0 && cbFrom <= SIZE_OF_JMP
      ensures cbTarget <= SIZE_OF_JMP
      ensures cbTarget == SIZE_OF_JMP <==> FillersFrom(mem, pbFrom, (SIZE_OF_JMP - cbFrom) / 4)
    {
      hide Plus, IsFiller, Load32;
      var pbSrc := pbFrom;
      cbTarget := cbFrom;
      while cbTarget < SIZE_OF_JMP
        invariant cbTarget % 4 == 0 && cbTarget <= SIZE_OF_JMP
        invariant FillersFrom(mem, pbSrc, (SIZE_OF_JMP - cbTarget) / 4) <==>
                  FillersFrom(mem, pbFrom, (SIZE_OF_JMP - cbFrom) / 4)
      {
        FillersSplit(mem, pbSrc, (SIZE_OF_JMP - cbTarget) / 4);
        if !IsFiller(Load32(mem, pbSrc)) {
          break;
        }
        pbSrc := Plus(pbSrc, 4);
        cbTarget := cbTarget + 4;
      }
    }

    /** The jump back through the pool, and breaks up to the pool. */
    method EmitJumpBack(pbTrampoline: Addr, at: nat)
      requires rbCode.Length == RB_CODE_WORDS && at <= 18
      modifies rbCode
      ensures Filled(rbCode[..], old(rbCode[..at]) + JumpWords(pbTrampoline, AddressOf(pbTrampoline, at)), pbRemain)
    {
      hide JumpLoad, AddressOf, PoolAddress, Distance, Low32;
      var a := AddressOf(pbTrampoline, at);
      // detour_gen_jmp_immediate
      rbCode[30], rbCode[31] := Low(pbRemain), High(pbRemain);
      rbCode[at] := JumpLoad(Distance(a, PoolAddress(pbTrampoline)));
      rbCode[at + 1] := JUMP_BR;
      // detour_gen_brk
      for k := at + 2 to 30
        invariant forall j | at + 2 <= j < k :: rbCode[j] == BREAK_WORD
        invariant rbCode[..at] == old(rbCode[..at])
        invariant rbCode[at] == JumpLoad(Distance(a, PoolAddress(pbTrampoline))) && rbCode[at + 1] == JUMP_BR
        invariant rbCode[30] == Low(pbRemain) && rbCode[31] == High(pbRemain)
      {
        rbCode[k] := BREAK_WORD;
      }
      assert rbCode[..at + 2] == rbCode[..at] + [rbCode[at], rbCode[at + 1]];
    }

    /** Fills this trampoline, which stands at `pbTrampoline`, from the function at `pbTarget`. */
    method Fill(pbTarget: Addr, pbTrampoline: Addr, pDetour: Addr, mem: Memory) returns (error: nat)
      requires rbCode.Length == RB_CODE_WORDS
      modifies this, rbCode
      ensures error == NO_ERROR || error == ERROR_INVALID_BLOCK
      ensures error == NO_ERROR <==> exists n :: CanDisplace(mem, pbTarget, n)
      ensures error == NO_ERROR ==> exists n :: CanDisplace(mem, pbTarget, n) && Displaced(mem, pbTarget, 3) == RestoreWords(mem, pbTarget, n)
      ensures error == NO_ERROR <==> Enough(mem, pbTarget)
      ensures error == NO_ERROR ==>
              && Filled(rbCode[..], TrampolineWords(mem, pbTarget, pbTrampoline), pbRemain)
              && cbCode == 4 * |CopyAll(Displaced(mem, pbTarget, 3), pbTarget, pbTrampoline, mem)|
              && rbRestore == RestoreWords(mem, pbTarget, 3) && cbRestore == SIZE_OF_JMP
              && pbRemain == AddressOf(pbTarget, 3) && pbDetour == pDetour
    {
      hide Plus, CopyAll, Displaced, AddressOf, FillersFrom, RestoreWords, Filled, JumpWords, CanDisplace;
      EnoughIs(mem, pbTarget);
      var pbSrc, cbTarget, at := CopyTarget(pbTarget, pbTrampoline, mem);
      cbTarget := SkipFiller(pbSrc, cbTarget, mem);
      if cbTarget < SIZE_OF_JMP {
        return ERROR_INVALID_BLOCK;
      }
      cbCode := 4 * at;
      cbRestore := cbTarget;
      rbRestore := RestoreWords(mem, pbTarget, cbTarget / 4);
      pbRemain := AddressOf(pbTarget, cbTarget / 4);
      pbDetour := pDetour;
      EndIsAddress(pbTrampoline, rbCode[..at]);
      EmitJumpBack(pbTrampoline, at);
      error := NO_ERROR;
    }
  }

  lemma StartsEmpty(mem: Memory, src: Addr, dst: Addr)
    ensures Displaced(mem, src, 0) == [] && CopyAll([], src, dst, mem) == []
  {}

  // ------------------------------------------------------- In memory, installed

  /** A filled trampoline lying in memory at its own address is what `TrampolineSimulates` runs. */
  lemma FilledIsInstalled(m: Memory, tramp: Addr, rbCode: seq<Word>, words: seq<Word>, remain: Addr)
    requires Filled(rbCode, words, remain) && CodeAt(m, tramp, rbCode)
    ensures Installed(m, tramp, words, remain)
  {
    hide Plus, Load32, CodeAt, Bytes, PoolAddress, AddressOf;
    var mid, pool := rbCode[|words|..30], [Low(remain), High(remain)];
    assert rbCode == words + (mid + pool);
    CodeAtAppend(m, tramp, words, mid + pool);
    assert rbCode == (words + mid) + pool;
    CodeAtAppend(m, tramp, words + mid, pool);
    EndIsAddress(tramp, words + mid);
    PoolIsWord30(tramp);
    TwoWords(m, PoolAddress(tramp), pool);
    HalvesJoin(remain);
  }

  lemma TwoWords(m: Memory, a: Addr, ws: seq<Word>)
    requires |ws| == 2 && CodeAt(m, a, ws)
    ensures Load32(m, a) == ws[0] && Load32(m, Plus(a, 4)) == ws[1]
  {
    hide Plus, Load32;
    assert CodeAt(m, Plus(a, 4), ws[1..]);
  }

  lemma HalvesJoin(a: Addr)
    ensures Low(a) as bv64 | (High(a) as bv64 << 32) == a
  {}
}
