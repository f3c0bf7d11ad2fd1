/** Moving an IA64 bundle (detours/src/disasm.cpp:1952-2070, 2193-2211): every IP-relative instruction is
  * redirected to an island of its own, a brl to where the instruction went.
  */
module Ia64Relocation {
  import opened Ia64Bundle

  // ---------------------------------------------------------------- 64-bit addresses

  function Plus(at: Word, delta: Word): Word { at + delta }

  function Minus(to: Word, from: Word): Word { to - from }

  predicate Lower(to: Word, from: Word) { to < from }

  lemma There(at: Word, target: Word)
    ensures Plus(at, Minus(target, at)) == target
  {
    assert Minus(target, at) == target - at;
    assert Plus(at, target - at) == at + (target - at);
  }

  lemma AlignedPlus(x: Word, y: Word)
    requires Aligned(x) && Aligned(y)
    ensures Aligned(Plus(x, y))
  {}

  lemma AlignedMinus(x: Word, y: Word)
    requires Aligned(x) && Aligned(y)
    ensures Aligned(Minus(x, y))
  {}

  // ------------------------------------------------------------------------ Meaning

  function Displacement(form: Form, i: Word): Word {
    match form
    case NOT_RELATIVE => 0
    case IMM13_7 => Offset13_7(i)
    case IMM20A => Offset20a(i)
    case IMM20B => Offset20b(i)
  }

  function SlotForm(b: Bundle, k: SlotIndex): Form { FormOf(UnitOf(Template(b), k), Get(b, k)) }

  predicate IsRelative(b: Bundle, k: SlotIndex) { SlotForm(b, k) != NOT_RELATIVE }

  /** Where the IP-relative instruction in slot `k` of a bundle at `at` goes. */
  function SlotTarget(b: Bundle, at: Word, k: SlotIndex): Word { Plus(at, Displacement(SlotForm(b, k), Get(b, k))) }

  lemma TemplateIsSmall(w: Word)
    ensures TemplateBits(w) <= 0x1f
  {}

  /** The slots that are relocated are the IP-relative ones after the manual's template and format tables. */
  lemma SlotFormIs(b: Bundle, k: SlotIndex)
    ensures var units := Letters(Template(b));
            SlotForm(b, k) == if units == "" then NOT_RELATIVE else Format(units[k], Get(b, k))
  {
    hide TemplateBits, Letters, UnitOf, Get, FormOf, Format;
    TemplateIsSmall(b.wide0);
    UnitsAre(Template(b), k);
    FormsAre(UnitOf(Template(b), k), Get(b, k));
    if UnitOf(Template(b), k) == NO_UNIT { NoUnit(Get(b, k)); }
  }

  lemma NoUnit(i: Word)
    ensures FormOf(NO_UNIT, i) == NOT_RELATIVE
  {}

  function BrlTarget(b: Bundle, at: Word): Word { Plus(at, GetBrlImm(b)) }

  // ---------------------------------------------------------------------- Relocation

  function Redirect(form: Form, i: Word, delta: Word, s: Word): Word {
    match form
    case NOT_RELATIVE => i
    case IMM13_7 => To13_7(i, delta, s)
    case IMM20A => To20a(i, delta, s)
    case IMM20B => To20b(i, delta, s)
  }

  /** The instruction `i` at `from`, sent to `to`. */
  function Sent(form: Form, i: Word, from: Word, to: Word): Word {
    Redirect(form, i, Minus(to, from), if Lower(to, from) then 1 else 0)
  }

  function SetBrlTarget(b: Bundle, at: Word, target: Word): Bundle { SetBrlImm(b, Minus(target, at)) }

  function SetBrl(at: Word, target: Word): Bundle { SetBrlTarget(BRL, at, target) }

  /** An island does nothing but branch: nop.m and brl.cond.sptk, without a predicate. */
  lemma IslandBranches(at: Word, target: Word)
    ensures Template(SetBrl(at, target)) == 5 && Get(SetBrl(at, target), 0) == 0x800_0000
    ensures Get(SetBrl(at, target), 2) & 0x1e0_0000_0fff == 0x180_0000_0000
  {
    hide Low0, High2, BrlLow, BrlHigh, TemplateBits, Minus;
    PlainBrlLow(Minus(target, at));
    PlainBrlHigh(Minus(target, at));
  }

  lemma PlainBrlLow(imm: Word)
    ensures TemplateBits(BrlLow(BRL.wide0, imm)) == 5 && Low0(BrlLow(BRL.wide0, imm)) == 0x800_0000
  {}

  lemma PlainBrlHigh(imm: Word)
    ensures High2(BrlHigh(BRL.wide1, imm)) & 0x1e0_0000_0fff == 0x180_0000_0000
  {}

  /** How many islands the slots below `k` use. */
  function Used(b: Bundle, k: nat): (n: nat)
    requires k <= 3
    ensures n <= k
  {
    if k == 0 then 0 else Used(b, k - 1) + if IsRelative(b, k - 1) then 1 else 0
  }

  /** The islands lie below one another. */
  function Island(first: Word, n: nat): Word {
    if n == 0 then first else if n == 1 then Minus(first, 16) else Minus(first, 32)
  }

  function RelocateSlot(src: Bundle, dst: Bundle, to: Word, k: SlotIndex, extra: Word): Bundle {
    if IsRelative(src, k) then Set(dst, k, Sent(SlotForm(src, k), Get(src, k), to, extra)) else dst
  }

  function Relocated(src: Bundle, to: Word, first: Word, k: nat): Bundle
    requires k <= 3
  {
    if k == 0 then src
    else RelocateSlot(src, Relocated(src, to, first, k - 1), to, k - 1, Island(first, Used(src, k - 1)))
  }

  function Copied(src: Bundle, at: Word, to: Word, first: Word): Bundle {
    var dst := Relocated(src, to, first, 3);
    if UnitOf(Template(src), 1) == L_UNIT && IsBrl(src) then SetBrlTarget(dst, to, BrlTarget(src, at)) else dst
  }

  // ---------------------------------------------------------- One instruction redirected

  /** The displacement fields of a form can say how far `to` is from `from`. */
  predicate WithinReach(from: Word, to: Word) {
    if Lower(to, from) then IsBack(Minus(to, from)) else IsForward(Minus(to, from))
  }

  lemma SentGoes(form: Form, i: Word, from: Word, to: Word)
    requires form != NOT_RELATIVE && Aligned(Minus(to, from))
    ensures Displacement(form, Sent(form, i, from, to)) == Minus(to, from) <==> WithinReach(from, to)
  {
    hide Displacement, Redirect, Aligned, IsBack, IsForward, Minus, Lower;
    if Lower(to, from) { DisplacedBack(form, i, Minus(to, from)); } else { DisplacedForward(form, i, Minus(to, from)); }
  }

  lemma DisplacedForward(form: Form, i: Word, delta: Word)
    requires form != NOT_RELATIVE && Aligned(delta)
    ensures Displacement(form, Redirect(form, i, delta, 0)) == delta <==> IsForward(delta)
  {
    hide Offset13_7, Offset20a, Offset20b, To13_7, To20a, To20b, Aligned, IsForward, IsBack;
    match form
    case IMM13_7 => Reach13_7Forward(i, delta);
    case IMM20A => Reach20aForward(i, delta);
    case IMM20B => Reach20bForward(i, delta);
  }

  lemma DisplacedBack(form: Form, i: Word, delta: Word)
    requires form != NOT_RELATIVE && Aligned(delta)
    ensures Displacement(form, Redirect(form, i, delta, 1)) == delta <==> IsBack(delta)
  {
    hide Offset13_7, Offset20a, Offset20b, To13_7, To20a, To20b, Aligned, IsForward, IsBack;
    match form
    case IMM13_7 => Reach13_7Back(i, delta);
    case IMM20A => Reach20aBack(i, delta);
    case IMM20B => Reach20bBack(i, delta);
  }

  lemma To13_7KeepsOpcode(i: Word, delta: Word, s: Word)
    ensures Opcode(To13_7(i, delta, s)) == Opcode(i)
  {}

  lemma To13_7KeepsX3(i: Word, delta: Word, s: Word)
    ensures X3(To13_7(i, delta, s)) == X3(i)
  {}

  lemma To13_7KeepsRest(i: Word, delta: Word, s: Word)
    ensures To13_7(i, delta, s) & 0xffff_ffee_000f_e03f == i & 0xffff_ffee_000f_e03f
  {}

  lemma To20aKeepsOpcode(i: Word, delta: Word, s: Word)
    ensures Opcode(To20a(i, delta, s)) == Opcode(i)
  {}

  lemma To20aKeepsX(i: Word, delta: Word, s: Word)
    ensures X(To20a(i, delta, s)) == X(i)
  {}

  lemma To20aKeepsX6(i: Word, delta: Word, s: Word)
    ensures X6(To20a(i, delta, s)) == X6(i)
  {}

  lemma To20aKeepsRest(i: Word, delta: Word, s: Word)
    ensures To20a(i, delta, s) & 0xffff_ffef_fc00_003f == i & 0xffff_ffef_fc00_003f
  {}

  lemma To20bKeepsOpcode(i: Word, delta: Word, s: Word)
    ensures Opcode(To20b(i, delta, s)) == Opcode(i)
  {}

  lemma To20bKeepsX3(i: Word, delta: Word, s: Word)
    ensures X3(To20b(i, delta, s)) == X3(i)
  {}

  lemma To20bKeepsRest(i: Word, delta: Word, s: Word)
    ensures To20b(i, delta, s) & 0xffff_ffee_0000_1fff == i & 0xffff_ffee_0000_1fff
  {}

  lemma RedirectIsInstruction(form: Form, i: Word, delta: Word, s: Word)
    requires i <= INSTRUCTION
    ensures Redirect(form, i, delta, s) <= INSTRUCTION
  {}

  /** A redirected instruction has the same form. */
  lemma RedirectKeepsForm(unit: Unit, i: Word, delta: Word, s: Word)
    ensures FormOf(unit, Redirect(FormOf(unit, i), i, delta, s)) == FormOf(unit, i)
  {
    To13_7KeepsOpcode(i, delta, s);
    To13_7KeepsX3(i, delta, s);
    To20aKeepsOpcode(i, delta, s);
    To20aKeepsX(i, delta, s);
    To20aKeepsX6(i, delta, s);
    To20bKeepsOpcode(i, delta, s);
    To20bKeepsX3(i, delta, s);
    hide To13_7, To20a, To20b, Opcode, X, X3, X6;
  }

  // ------------------------------------------------------------------------ The bundle

  lemma AlignedBelow(first: Word)
    requires Aligned(first)
    ensures Aligned(Minus(first, 16))
  {}

  lemma AlignedTwoBelow(first: Word)
    requires Aligned(first)
    ensures Aligned(Minus(first, 32))
  {}

  lemma AlignedIsland(first: Word, n: nat)
    requires Aligned(first)
    ensures Aligned(Island(first, n))
  {
    hide Aligned, Minus;
    AlignedBelow(first);
    AlignedTwoBelow(first);
  }

  lemma Aligned13_7(i: Word)
    ensures Aligned(Offset13_7(i))
  {}

  lemma Aligned20a(i: Word)
    ensures Aligned(Offset20a(i))
  {}

  lemma Aligned20b(i: Word)
    ensures Aligned(Offset20b(i))
  {}

  lemma ZeroAligned()
    ensures Aligned(0)
  {}

  lemma DisplacementAligned(form: Form, i: Word)
    ensures Aligned(Displacement(form, i))
  {
    hide Offset13_7, Offset20a, Offset20b, Aligned;
    ZeroAligned();
    Aligned13_7(i);
    Aligned20a(i);
    Aligned20b(i);
  }

  lemma SlotTargetAligned(b: Bundle, at: Word, k: SlotIndex)
    requires Aligned(at)
    ensures Aligned(SlotTarget(b, at, k))
  {
    hide Displacement, Aligned, Plus, SlotForm, Get;
    DisplacementAligned(SlotForm(b, k), Get(b, k));
    AlignedPlus(at, Displacement(SlotForm(b, k), Get(b, k)));
  }

  /** A brl set to an aligned target, at an aligned address, goes there, whatever bundle it was made of. */
  lemma SetBrlTargetGoes(b: Bundle, at: Word, target: Word)
    requires Aligned(at) && Aligned(target)
    ensures BrlTarget(SetBrlTarget(b, at, target), at) == target
  {
    hide Aligned, Plus, Minus, GetBrlImm, SetBrlImm;
    AlignedMinus(target, at);
    BrlImmInverse(b, Minus(target, at));
    There(at, target);
  }

  /** The instruction that slot `k` of the moved bundle holds. */
  function Moved(src: Bundle, to: Word, first: Word, k: SlotIndex): Word {
    Sent(SlotForm(src, k), Get(src, k), to, Island(first, Used(src, k)))
  }

  lemma MovedIsInstruction(src: Bundle, to: Word, first: Word, k: SlotIndex)
    ensures Moved(src, to, first, k) <= INSTRUCTION
  {
    hide Redirect, Get, Minus, Lower, Island, SlotForm;
    GetIsInstruction(src, k);
    var e := Island(first, Used(src, k));
    RedirectIsInstruction(SlotForm(src, k), Get(src, k), Minus(e, to), if Lower(e, to) then 1 else 0);
  }

  lemma {:induction false} RelocatedSlots(src: Bundle, to: Word, first: Word, k: nat)
    requires k <= 3
    ensures Template(Relocated(src, to, first, k)) == Template(src)
    ensures forall j: SlotIndex :: Get(Relocated(src, to, first, k), j) == if j < k then Moved(src, to, first, j) else Get(src, j)
  {
    hide Get, Set, Template, Sent, Displacement, SlotForm, Island;
    if k > 0 {
      var dst := Relocated(src, to, first, k - 1);
      RelocatedSlots(src, to, first, k - 1);
      var i := Moved(src, to, first, k - 1);
      MovedIsInstruction(src, to, first, k - 1);
      GetSet(dst, k - 1, i);
      forall j: SlotIndex ensures j != k - 1 ==> Get(Set(dst, k - 1, i), j) == Get(dst, j) {
        SetKeepsOthers(dst, k - 1, i, j);
      }
      SetKeepsOthers(dst, k - 1, i, k - 1);
      if !IsRelative(src, k - 1) { Unmoved(src, to, first, k - 1); }
    }
  }

  lemma Unmoved(src: Bundle, to: Word, first: Word, k: SlotIndex)
    requires !IsRelative(src, k)
    ensures Moved(src, to, first, k) == Get(src, k)
  {
    hide Get, SlotForm, Island, Minus, Lower;
  }

  // --------------------------------------------------------------------- Main theorem

  /** `moved`, copied from `at` to `to`, keeps its template and each instruction that is not IP-relative,
    * and sends each that is, with its form and its other bits, through its own island to where it went.
    */
  predicate KeepsTargets(src: Bundle, at: Word, moved: Bundle, to: Word, first: Word) {
    Template(moved) == Template(src) && forall k: SlotIndex :: SlotKept(src, at, moved, to, first, k)
  }

  predicate SlotKept(src: Bundle, at: Word, moved: Bundle, to: Word, first: Word, k: SlotIndex) {
    if IsRelative(src, k) then
      && SlotForm(moved, k) == SlotForm(src, k)
      && SlotTarget(moved, to, k) == Island(first, Used(src, k))
      && BrlTarget(IslandOf(src, at, first, k), Island(first, Used(src, k))) == SlotTarget(src, at, k)
    else (IsBrl(src) && k > 0) || Get(moved, k) == Get(src, k)
  }

  /** The brl that the copy leaves in the island of slot `k`. */
  function IslandOf(src: Bundle, at: Word, first: Word, k: SlotIndex): Bundle {
    SetBrl(Island(first, Used(src, k)), SlotTarget(src, at, k))
  }

  /** Islands of two slots are different. */
  lemma OwnIsland(src: Bundle, first: Word, j: SlotIndex, k: SlotIndex)
    requires j < k && IsRelative(src, j) && IsRelative(src, k)
    ensures Used(src, j) < Used(src, k) && Island(first, Used(src, j)) != Island(first, Used(src, k))
  {
    hide IsRelative, Minus;
    ThreeIslands(first);
  }

  lemma Below(first: Word)
    ensures Minus(first, 16) != first
  {}

  lemma TwoBelow(first: Word)
    ensures Minus(first, 32) != first
  {}

  lemma BelowBelow(first: Word)
    ensures Minus(first, 16) != Minus(first, 32)
  {}

  lemma ThreeIslands(first: Word)
    ensures first != Minus(first, 16) && first != Minus(first, 32) && Minus(first, 16) != Minus(first, 32)
  {
    hide Minus;
    Below(first);
    TwoBelow(first);
    BelowBelow(first);
  }

  /** A redirected slot reaches its island exactly when the island is within 16 MB. */
  lemma MovedReaches(src: Bundle, to: Word, first: Word, k: SlotIndex)
    requires Aligned(to) && Aligned(first) && IsRelative(src, k)
    ensures Plus(to, Displacement(SlotForm(src, k), Moved(src, to, first, k))) == Island(first, Used(src, k))
       <==> WithinReach(to, Island(first, Used(src, k)))
  {
    hide *;
    var island := Island(first, Used(src, k));
    AlignedIsland(first, Used(src, k));
    AlignedMinus(island, to);
    FormOfRelative(src, k);
    SentGoes(SlotForm(src, k), Get(src, k), to, island);
    MovedIsSent(src, to, first, k, island);
    There(to, island);
    FromHere(to, Displacement(SlotForm(src, k), Moved(src, to, first, k)));
  }

  lemma MovedIsSent(src: Bundle, to: Word, first: Word, k: SlotIndex, island: Word)
    requires island == Island(first, Used(src, k))
    ensures Moved(src, to, first, k) == Sent(SlotForm(src, k), Get(src, k), to, island)
  {
    hide Sent, SlotForm, Get, Island;
  }

  lemma FormOfRelative(b: Bundle, k: SlotIndex)
    ensures IsRelative(b, k) <==> SlotForm(b, k) != NOT_RELATIVE
  {
    hide SlotForm;
  }

  lemma FromHere(at: Word, delta: Word)
    ensures Minus(Plus(at, delta), at) == delta
  {
    assert Plus(at, delta) == at + delta;
    assert Minus(at + delta, at) == at + delta - at;
  }

  lemma MovedKeepsForm(src: Bundle, to: Word, first: Word, k: SlotIndex)
    ensures FormOf(UnitOf(Template(src), k), Moved(src, to, first, k)) == SlotForm(src, k)
  {
    hide Template, Get, Island, Minus, Lower, FormOf, Redirect;
    var e := Island(first, Used(src, k));
    RedirectKeepsForm(UnitOf(Template(src), k), Get(src, k), Minus(e, to), if Lower(e, to) then 1 else 0);
  }

  /** The moved bundle before a brl is retargeted. */
  lemma RelocatedKeepsTargets(src: Bundle, at: Word, to: Word, first: Word)
    requires Aligned(at) && Aligned(to) && Aligned(first)
    requires forall k: SlotIndex :: IsRelative(src, k) ==> WithinReach(to, Island(first, Used(src, k)))
    ensures KeepsTargets(src, at, Relocated(src, to, first, 3), to, first)
  {
    hide Template, Get, Displacement, FormOf, Moved, Island, Plus, Aligned, WithinReach, Relocated, SetBrl, BrlTarget;
    var moved := Relocated(src, to, first, 3);
    RelocatedSlots(src, to, first, 3);
    forall k: SlotIndex ensures SlotKept(src, at, moved, to, first, k) {
      if IsRelative(src, k) {
        MovedKeepsForm(src, to, first, k);
        MovedReaches(src, to, first, k);
        IslandGoes(src, at, first, k);
      } else {
        Unmoved(src, to, first, k);
      }
    }
  }

  lemma IslandGoes(src: Bundle, at: Word, first: Word, k: SlotIndex)
    requires Aligned(at) && Aligned(first)
    ensures BrlTarget(IslandOf(src, at, first, k), Island(first, Used(src, k))) == SlotTarget(src, at, k)
  {
    hide Aligned, Island, SlotTarget, BrlTarget, SetBrlTarget, BRL;
    AlignedIsland(first, Used(src, k));
    SlotTargetAligned(src, at, k);
    SetBrlTargetGoes(BRL, Island(first, Used(src, k)), SlotTarget(src, at, k));
  }

  lemma BrlHasNoMore(src: Bundle, to: Word, first: Word)
    requires IsBrl(src)
    ensures !IsRelative(src, 1) && !IsRelative(src, 2)
    ensures Relocated(src, to, first, 3) == RelocateSlot(src, src, to, 0, first)
  {
    BrlUnits(src);
    hide Get, Set, Template, Redirect, UnitOf, Minus;
    assert Used(src, 0) == 0;
    assert Relocated(src, to, first, 0) == src;
    assert Relocated(src, to, first, 1) == RelocateSlot(src, src, to, 0, first);
  }

  lemma BrlRelocated(src: Bundle, to: Word, first: Word)
    requires IsBrl(src)
    ensures var b := Relocated(src, to, first, 3); IsBrl(b) && GetBrlImm(b) == GetBrlImm(src)
  {
    hide IsBrl, GetBrlImm, Get, Set, Sent, SlotForm;
    BrlHasNoMore(src, to, first);
    Set0KeepsBrl(src, Sent(SlotForm(src, 0), Get(src, 0), to, first));
  }

  /** A moved brl goes where it went, and but for that immediate it is the bundle that other relocation
    * leaves.
    */
  lemma BrlCopied(src: Bundle, at: Word, to: Word, first: Word)
    requires Aligned(at) && Aligned(to) && IsBrl(src)
    ensures IsBrl(Copied(src, at, to, first)) && BrlTarget(Copied(src, at, to, first), to) == BrlTarget(src, at)
    ensures SetBrlImm(Copied(src, at, to, first), GetBrlImm(src)) == Relocated(src, to, first, 3)
    ensures Template(Copied(src, at, to, first)) == Template(Relocated(src, to, first, 3))
    ensures Get(Copied(src, at, to, first), 0) == Get(Relocated(src, to, first, 3), 0)
  {
    BrlUnits(src);
    hide IsBrl, GetBrlImm, SetBrlImm, Get, Template, Relocated, UnitOf, BrlTarget, Aligned, Minus;
    var dst := Relocated(src, to, first, 3);
    BrlRelocated(src, to, first);
    BrlTargetAligned(src, at);
    SetBrlTargetGoes(dst, to, BrlTarget(src, at));
    var imm := Minus(BrlTarget(src, at), to);
    SetBrlImmKeeps(dst, imm);
    SetBrlImmAgain(dst, imm, GetBrlImm(src));
    BrlImmInverse(dst, imm);
  }

  lemma BrlTargetAligned(b: Bundle, at: Word)
    requires Aligned(at)
    ensures Aligned(BrlTarget(b, at))
  {
    hide BrlImmOf, Aligned, Plus;
    BrlImmOfIsAligned(b.wide0, b.wide1);
    AlignedPlus(at, GetBrlImm(b));
  }

  /** Moving a bundle keeps where every instruction of it goes, a brl in slots 1 and 2 included. */
  lemma CopyKeepsTargets(src: Bundle, at: Word, to: Word, first: Word)
    requires Aligned(at) && Aligned(to) && Aligned(first)
    requires forall k: SlotIndex :: IsRelative(src, k) ==> WithinReach(to, Island(first, Used(src, k)))
    ensures KeepsTargets(src, at, Copied(src, at, to, first), to, first)
    ensures IsBrl(src) ==> IsBrl(Copied(src, at, to, first)) && BrlTarget(Copied(src, at, to, first), to) == BrlTarget(src, at)
  {
    hide IsBrl, Relocated, KeepsTargets, BrlTarget, Get, Template, UnitOf, Aligned, WithinReach, SetBrlTarget, Island, Used, IsRelative;
    RelocatedKeepsTargets(src, at, to, first);
    if IsBrl(src) {
      BrlHasNoMore(src, to, first);
      BrlCopied(src, at, to, first);
      KeptBySlot0(src, at, Relocated(src, to, first, 3), Copied(src, at, to, first), to, first);
    }
  }

  lemma KeptBySlot0(src: Bundle, at: Word, b: Bundle, c: Bundle, to: Word, first: Word)
    requires KeepsTargets(src, at, b, to, first) && IsBrl(src) && !IsRelative(src, 1) && !IsRelative(src, 2)
    requires Template(c) == Template(b) && Get(c, 0) == Get(b, 0)
    ensures KeepsTargets(src, at, c, to, first)
  {
    SameSlot0(b, c, to);
    hide IsBrl, SlotForm, SlotTarget, Island, BrlTarget, Get, Template, Used, IslandOf;
    assert SlotKept(src, at, b, to, first, 0);
  }

  lemma SameSlot0(b: Bundle, c: Bundle, at: Word)
    requires Template(b) == Template(c) && Get(b, 0) == Get(c, 0)
    ensures SlotForm(b, 0) == SlotForm(c, 0) && SlotTarget(b, at, 0) == SlotTarget(c, at, 0)
  {}

  /** In a trampoline, the islands are the third to fifth bundles from the moved one. */
  lemma TrampolineIslandsWithinReach(to: Word, n: nat)
    requires to <= 0xffff_ffff_ffff_ff00 && n < 3
    ensures WithinReach(to, Island(Plus(to, 64), n))
  {
    hide WithinReach, Minus, Plus;
    if n == 0 {
      NearReach(to, 64);
    } else if n == 1 {
      assert Minus(Plus(to, 64), 16) == Plus(to, 48) by { Less16(to); }
      NearReach(to, 48);
    } else {
      assert Minus(Plus(to, 64), 32) == Plus(to, 32) by { Less32(to); }
      NearReach(to, 32);
    }
  }

  lemma Less16(to: Word)
    ensures Minus(Plus(to, 64), 16) == Plus(to, 48)
  {}

  lemma Less32(to: Word)
    ensures Minus(Plus(to, 64), 32) == Plus(to, 32)
  {}

  lemma ForwardReach(to: Word, island: Word, delta: Word)
    requires Minus(island, to) == delta && IsForward(delta) && !Lower(island, to)
    ensures WithinReach(to, island)
  {
    hide Minus, Lower, IsForward;
  }

  lemma NotLower(to: Word, delta: Word)
    requires to <= 0xffff_ffff_ffff_ff00 && delta <= 64
    ensures !Lower(Plus(to, delta), to)
  {}

  lemma SmallIsForward(delta: Word)
    requires delta <= 64
    ensures IsForward(delta)
  {}

  lemma NearReach(to: Word, delta: Word)
    requires to <= 0xffff_ffff_ffff_ff00 && delta <= 64
    ensures WithinReach(to, Plus(to, delta))
  {
    FromHere(to, delta);
    NotLower(to, delta);
    SmallIsForward(delta);
    hide *;
    ForwardReach(to, Plus(to, delta), delta);
  }

  // ------------------------------------------------------------------- The bundle object

  /** A bundle in memory. */
  class DetourIa64Bundle {
    const at: Word
    var wide0: Word
    var wide1: Word

    constructor (at: Word, b: Bundle)
      ensures this.at == at && Value() == b
    {
      this.at, wide0, wide1 := at, b.wide0, b.wide1;
    }

    function Value(): Bundle
      reads this
    {
      Bundle(wide0, wide1)
    }

    method SetValue(b: Bundle)
      modifies this
      ensures Value() == b
    {
      wide0, wide1 := b.wide0, b.wide1;
    }

    method SetInstruction(slot: SlotIndex, instruction: Word)
      modifies this
      ensures Value() == Set(old(Value()), slot, instruction)
    {
      hide PutLow0, PutLow1, PutHigh1, PutHigh2;
      match slot
      case 0 => wide0 := PutLow0(wide0, instruction);
      case 1 => wide0, wide1 := PutLow1(wide0, instruction), PutHigh1(wide1, instruction);
      case 2 => wide1 := PutHigh2(wide1, instruction);
    }

    method SetBrlTo(target: Word)
      modifies this
      ensures Value() == SetBrl(at, target)
    {
      hide BrlLow, BrlHigh, Minus, BRL;
      SetValue(BRL);
      SetBrlTargetTo(target);
    }

    method SetBrlTargetTo(target: Word)
      modifies this
      ensures Value() == SetBrlTarget(old(Value()), at, target)
    {
      hide BrlLow, BrlHigh, Minus;
      SetValue(SetBrlImm(Value(), Minus(target, at)));
    }

    /** With an island, redirects the instruction to it and the island to the target; says in either case
      * whether the instruction is IP-relative.
      */
    method RelocateInstruction(pDst: DetourIa64Bundle, slot: SlotIndex, pBundleExtra: DetourIa64Bundle?) returns (relative: bool)
      requires pDst != this && pBundleExtra != this && pBundleExtra != pDst
      modifies if pBundleExtra == null then {} else {pDst, pBundleExtra}
      ensures relative == IsRelative(Value(), slot)
      ensures pBundleExtra != null ==> pDst.Value() == RelocateSlot(Value(), old(pDst.Value()), pDst.at, slot, pBundleExtra.at)
      ensures pBundleExtra != null && relative ==> pBundleExtra.Value() == SetBrl(pBundleExtra.at, SlotTarget(Value(), at, slot))
      ensures pBundleExtra != null && !relative ==> pBundleExtra.Value() == old(pBundleExtra.Value())
    {
      hide Get, Set, SlotForm, Displacement, Redirect, Plus, Minus, Lower, SetBrl;
      var instruction := Get(Value(), slot);
      var form := SlotForm(Value(), slot);
      if form == NOT_RELATIVE { return false; }
      var imm := Displacement(form, instruction);
      if pBundleExtra != null {
        pDst.SetInstruction(slot, Sent(form, instruction, pDst.at, pBundleExtra.at));
        pBundleExtra.SetBrlTo(Plus(at, imm));
      }
      return true;
    }

    /** `pool` is the islands from the first one down, or nothing to measure only. */
    predicate PoolFor(pDst: DetourIa64Bundle, pool: seq<DetourIa64Bundle>, first: Word) {
      && pDst != this
      && (pool == [] || |pool| == 3)
      && (forall j | 0 <= j < |pool| :: pool[j].at == Island(first, j) && pool[j] != this && pool[j] != pDst)
      && (forall i, j | 0 <= i < j < |pool| :: pool[i] != pool[j])
    }

    static ghost function Values(pool: seq<DetourIa64Bundle>): (s: seq<Bundle>)
      reads pool
      ensures |s| == |pool| && forall j | 0 <= j < |pool| :: s[j] == pool[j].Value()
    {
      if pool == [] then [] else Values(pool[..|pool| - 1]) + [pool[|pool| - 1].Value()]
    }

    method RelocateNext(pDst: DetourIa64Bundle, slot: SlotIndex, pool: seq<DetourIa64Bundle>, n: nat, ghost first: Word)
      returns (relative: bool)
      requires PoolFor(pDst, pool, first) && n < 3
      modifies if pool == [] then {} else {pDst} + set x | x in pool
      ensures relative == IsRelative(Value(), slot) && Value() == old(Value())
      ensures pool != [] ==> pDst.Value() == RelocateSlot(Value(), old(pDst.Value()), pDst.at, slot, Island(first, n))
      ensures Values(pool) == if relative && pool != []
                              then old(Values(pool))[n := SetBrl(Island(first, n), SlotTarget(Value(), at, slot))]
                              else old(Values(pool))
    {
      hide IsRelative, SlotTarget, SetBrl, Island, RelocateSlot;
      relative := RelocateInstruction(pDst, slot, if pool == [] then null else pool[n]);
    }

    /** Having been copied, the bundle is relocated; the result is how many bytes of islands that takes. */
    method RelocateBundle(pDst: DetourIa64Bundle, pool: seq<DetourIa64Bundle>, ghost first: Word) returns (nExtraBytes: nat)
      requires PoolFor(pDst, pool, first) && pDst.Value() == Value()
      modifies if pool == [] then {} else {pDst} + set x | x in pool
      ensures nExtraBytes == 16 * Used(Value(), 3) && Value() == old(Value())
      ensures pool != [] ==> pDst.Value() == Relocated(Value(), pDst.at, first, 3) && IslandsSet(Value(), at, old(Values(pool)), Values(pool), first, 3)
    {
      hide IsRelative, SlotTarget, SetBrl, Island, RelocateSlot, Used, Relocated, Value, IslandsSet, Values;
      ghost var src, before := Value(), Values(pool);
      nExtraBytes := 0;
      var n := 0;
      FirstStep(src, at, pDst.at, before, first);
      for slot := 0 to 3
        invariant Value() == src && n == Used(src, slot) && nExtraBytes == 16 * n
        invariant pool == [] ==> pDst.Value() == src
        invariant pool != [] ==> pDst.Value() == Relocated(src, pDst.at, first, slot)
        invariant pool != [] ==> IslandsSet(src, at, before, Values(pool), first, slot)
      {
        NextStep(src, pDst.at, first, slot);
        if pool != [] { NextIsland(src, at, before, Values(pool), first, slot); }
        var relative := RelocateNext(pDst, slot, pool, n, first);
        if relative {
          n := n + 1;
          nExtraBytes := nExtraBytes + 16;
        }
      }
    }

    /** The bundle copied to `pDst` and its islands set; without a pool, only the bytes are counted right. */
    method Copy(pDst: DetourIa64Bundle, pool: seq<DetourIa64Bundle>, ghost first: Word) returns (nExtraBytes: nat)
      requires PoolFor(pDst, pool, first)
      modifies {pDst} + set x | x in pool
      ensures nExtraBytes == 16 * Used(Value(), 3) && Value() == old(Value())
      ensures pool != [] ==> pDst.Value() == Copied(Value(), at, pDst.at, first) && IslandsSet(Value(), at, old(Values(pool)), Values(pool), first, 3)
      ensures pool != [] && Aligned(at) && Aligned(pDst.at) && Aligned(first)
              && (forall k: SlotIndex :: IsRelative(Value(), k) ==> WithinReach(pDst.at, Island(first, Used(Value(), k))))
              ==> KeepsTargets(Value(), at, pDst.Value(), pDst.at, first)
    {
      hide IsRelative, IsBrl, SetBrlTarget, BrlTarget, Island, Used, Relocated, KeepsTargets, WithinReach, Aligned, IslandOf, Value, IslandsSet, Values;
      ghost var src := Value();
      pDst.SetValue(Value());
      nExtraBytes := RelocateBundle(pDst, pool, first);
      if UnitOf(Template(Value()), 1) == L_UNIT && IsBrl(Value()) {
        pDst.SetBrlTargetTo(BrlTarget(Value(), at));
      }
      CopyKeeps(src, at, pDst.at, first);
    }
  }

  lemma CopyKeeps(src: Bundle, at: Word, to: Word, first: Word)
    ensures Aligned(at) && Aligned(to) && Aligned(first)
            && (forall k: SlotIndex :: IsRelative(src, k) ==> WithinReach(to, Island(first, Used(src, k))))
            ==> KeepsTargets(src, at, Copied(src, at, to, first), to, first)
  {
    hide *;
    if Aligned(at) && Aligned(to) && Aligned(first)
       && (forall k: SlotIndex :: IsRelative(src, k) ==> WithinReach(to, Island(first, Used(src, k)))) {
      CopyKeepsTargets(src, at, to, first);
    }
  }

  /** Of islands that held `before`, those of the first `n` slots are set and no others. */
  predicate IslandsSet(src: Bundle, at: Word, before: seq<Bundle>, after: seq<Bundle>, first: Word, n: nat)
    requires n <= 3
  {
    && |after| == |before|
    && (forall k: SlotIndex | k < n && IsRelative(src, k) && Used(src, k) < |after| :: after[Used(src, k)] == IslandOf(src, at, first, k))
    && (forall j | Used(src, n) <= j < |after| :: after[j] == before[j])
  }

  lemma FirstStep(src: Bundle, at: Word, to: Word, before: seq<Bundle>, first: Word)
    ensures Used(src, 0) == 0 && Relocated(src, to, first, 0) == src && IslandsSet(src, at, before, before, first, 0)
  {}

  lemma NextIsland(src: Bundle, at: Word, before: seq<Bundle>, after: seq<Bundle>, first: Word, slot: SlotIndex)
    requires IslandsSet(src, at, before, after, first, slot) && |after| == 3
    ensures var n := Used(src, slot);
            IslandsSet(src, at, before, if IsRelative(src, slot) then after[n := SetBrl(Island(first, n), SlotTarget(src, at, slot))] else after,
                       first, slot + 1)
  {
    hide IsRelative, SlotTarget, SetBrl, Island, Used;
    NextStep(src, at, first, slot);
  }

  lemma NextStep(src: Bundle, to: Word, first: Word, k: SlotIndex)
    ensures Used(src, k + 1) == Used(src, k) + if IsRelative(src, k) then 1 else 0
    ensures Relocated(src, to, first, k + 1) == RelocateSlot(src, Relocated(src, to, first, k), to, k, Island(first, Used(src, k)))
    ensures forall j: SlotIndex | j < k && IsRelative(src, j) :: Used(src, j) < Used(src, k)
  {
    hide RelocateSlot, Island, IsRelative;
  }
}
