/** What the code of a committed attach does: entering a detoured function goes to the detour that its
  * trampoline holds (detours/src/detours.cpp:882-917, 1770-1775).
  */
module DetourJump {
  import opened Arm64
  import opened Arm64Encoding
  import opened Arm64Copy
  import opened Arm64Bits
  import opened Arm64Relocation
  import opened Arm64Patch
  import opened Arm64Address
  import opened TrampolineHeap
  import opened TrampolineReach
  import opened DetourOperations

  // -------------------------------------------------------------------------- Memory

  /** Memory in which the code lies at its addresses. */
  ghost predicate HoldsCode(m: Memory, code: map<nat, bv8>) { forall a | a in code :: m(AsAddress(a)) == code[a] }

  /** The struct `_DETOUR_TRAMPOLINE`: 128 bytes of rbCode, cbCode and padding, 24 bytes of rbRestore,
    * cbRestore and padding, eight bytes of rAlign, and then two pointers.
    */
  ghost predicate HoldsTrampoline(m: Memory, p: nat, t: Trampoline) {
    var at := p + 128 + (1 + 3) + 24 + (1 + 3) + 8;
    Load64(m, AsAddress(at)) == AsAddress(t.pbRemain) && Load64(m, AsAddress(at + 8)) == AsAddress(t.pbDetour)
  }

  /** With the eight bytes that each of the pointers takes, that is the whole trampoline. */
  lemma TrampolineSize()
    ensures SIZEOF_TRAMPOLINE == 128 + (1 + 3) + 24 + (1 + 3) + 8 + 8 + 8
  {}

  /** Three steps from the function lead to the detour and change x17 only. */
  ghost predicate EntersDetour(m: Memory, pbTarget: nat, pbDetour: nat) {
    forall other: OtherSemantics, c: Core | c.mem == m ::
      Run(other, State(AsAddress(pbTarget), c), 3) == State(AsAddress(pbDetour), SetX(c, X17, AsAddress(pbDetour)))
  }

  /** From the third instruction on the displaced range holds breaks. */
  ghost predicate BreaksUpTo(m: Memory, pbTarget: nat, cb: nat) {
    forall k: nat | 12 <= k < cb && k % 4 == 0 :: Load32(m, AsAddress(pbTarget + k)) == 0xd41e_0000
  }

  /** A function that has been detoured through a trampoline, in any memory that holds both. */
  ghost predicate Detoured(code: map<nat, bv8>, pbTarget: nat, p: nat, t: Trampoline) {
    forall m: Memory | HoldsCode(m, code) && HoldsTrampoline(m, p, t) ::
      EntersDetour(m, pbTarget, t.pbDetour) && BreaksUpTo(m, pbTarget, t.cbRestore)
  }

  // --------------------------------------------------------------------------- Words

  function Joined(b0: bv8, b1: bv8, b2: bv8, b3: bv8): Word { b0 as bv32 | (b1 as bv32 << 8) | (b2 as bv32 << 16) | (b3 as bv32 << 24) }

  lemma FourBytes(w: bv32)
    ensures Joined((w & 0xff) as bv8, ((w >> 8) & 0xff) as bv8, ((w >> 16) & 0xff) as bv8, ((w >> 24) & 0xff) as bv8) == w
  {}

  lemma WordJoined(w: bv32)
    ensures Joined(WordBytes(w)[0], WordBytes(w)[1], WordBytes(w)[2], WordBytes(w)[3]) == w
  {
    FourBytes(w);
    hide Joined;
  }

  lemma LoadJoins(m: Memory, a: Addr)
    ensures Load32(m, a) == Joined(m(a), m(Plus(a, 1)), m(Plus(a, 2)), m(Plus(a, 3)))
  {
    hide Plus;
  }

  /** The bytes of a word are found at an address, least significant first. */
  predicate WordAt(code: map<nat, bv8>, a: nat, w: Word) {
    forall i: nat | i < 4 :: a + i in code && code[a + i] == WordBytes(w)[i]
  }

  lemma ByteAt(code: map<nat, bv8>, a: nat, w: Word, i: nat)
    requires WordAt(code, a, w) && i < 4
    ensures a + i in code && code[a + i] == WordBytes(w)[i]
  {}

  lemma ByteLoaded(m: Memory, code: map<nat, bv8>, a: nat, w: Word, i: nat, off: bv64)
    requires HoldsCode(m, code) && WordAt(code, a, w) && i < 4 && AsAddress(i) == off
    ensures m(Plus(AsAddress(a), off)) == WordBytes(w)[i]
  {
    ByteAt(code, a, w, i);
    hide AsAddress, Plus, WordAt, WordBytes;
    AddressSum(a, i);
  }

  lemma WordLoaded(m: Memory, code: map<nat, bv8>, a: nat, w: Word)
    requires HoldsCode(m, code) && WordAt(code, a, w)
    ensures Load32(m, AsAddress(a)) == w
  {
    hide AsAddress, Plus, HoldsCode, WordAt, WordBytes, Load32, Joined;
    SmallAddresses();
    ByteLoaded(m, code, a, w, 0, 0);
    ByteLoaded(m, code, a, w, 1, 1);
    ByteLoaded(m, code, a, w, 2, 2);
    ByteLoaded(m, code, a, w, 3, 3);
    PlusNothing(AsAddress(a));
    LoadJoins(m, AsAddress(a));
    WordJoined(w);
  }

  lemma {:induction false} BreaksAt(cb: nat, k: nat)
    requires k + 4 <= cb && k % 4 == 0
    ensures |BreakBytes(cb)| >= k + 4 && BreakBytes(cb)[k..k + 4] == WordBytes(0xd41e_0000)
    decreases k
  {
    hide WordBytes;
    if k > 0 {
      BreaksAt(cb - 4, k - 4);
      assert BreakBytes(cb)[k..k + 4] == BreakBytes(cb - 4)[k - 4..k];
    }
  }

  /** The words of a patch: three that jump, and breaks. */
  lemma PatchWords(pbTarget: nat, p: nat, cb: nat, k: nat)
    requires SIZE_OF_JMP <= cb && cb % 4 == 0 && k + 4 <= cb && k % 4 == 0
    ensures var ws := JmpIndirect(AsAddress(pbTarget), AsAddress(p + OB_DETOUR));
      Patch(pbTarget, p, cb)[k..k + 4] == WordBytes(if k == 0 then ws[0] else if k == 4 then ws[1] else if k == 8 then ws[2] else 0xd41e_0000)
  {
    hide WordBytes, JmpIndirect, AsAddress;
    var ws := JmpIndirect(AsAddress(pbTarget), AsAddress(p + OB_DETOUR));
    PatchShape(AsAddress(pbTarget), AsAddress(p + OB_DETOUR));
    var breaks := BreakBytes(cb - SIZE_OF_JMP);
    var s := Patch(pbTarget, p, cb);
    assert s == WordBytes(ws[0]) + WordBytes(ws[1]) + WordBytes(ws[2]) + breaks;
    if k == 0 {
      assert s[0..4] == WordBytes(ws[0]);
    } else if k == 4 {
      assert s[4..8] == WordBytes(ws[1]);
    } else if k == 8 {
      assert s[8..12] == WordBytes(ws[2]);
    } else {
      BreaksAt(cb - SIZE_OF_JMP, k - 12);
      assert s[k..k + 4] == breaks[k - 12..k - 8];
    }
  }

  /** The code has the patch of an attach over a target. */
  predicate Patched(code: map<nat, bv8>, pbTarget: nat, p: nat, cb: nat)
    requires SIZE_OF_JMP <= cb && cb % 4 == 0
  {
    forall x | pbTarget <= x < pbTarget + cb :: x in code && code[x] == Patch(pbTarget, p, cb)[x - pbTarget]
  }

  lemma PatchedWord(code: map<nat, bv8>, pbTarget: nat, p: nat, cb: nat, k: nat, w: Word)
    requires SIZE_OF_JMP <= cb && cb % 4 == 0 && Patched(code, pbTarget, p, cb) && k + 4 <= cb
    requires Patch(pbTarget, p, cb)[k..k + 4] == WordBytes(w)
    ensures WordAt(code, pbTarget + k, w)
  {
    hide WordBytes, Patch;
    forall i: nat | i < 4
      ensures pbTarget + k + i in code && code[pbTarget + k + i] == WordBytes(w)[i]
    {
      assert Patch(pbTarget, p, cb)[k..k + 4][i] == Patch(pbTarget, p, cb)[k + i];
    }
  }

  // -------------------------------------------------------------------------- Running

  lemma EightIs(a: nat)
    ensures AsAddress(a + 4) == Plus(AsAddress(a), 4) && AsAddress(a + 8) == Plus(Plus(AsAddress(a), 4), 4)
  {
    hide AsAddress, Plus;
    SmallAddresses();
    AddressSum(a, 4);
    AddressSum(a + 4, 4);
  }

  lemma ThreeWords(m: Memory, a: Addr, ws: seq<Word>)
    requires |ws| == 3 && Load32(m, a) == ws[0] && Load32(m, Plus(a, 4)) == ws[1] && Load32(m, Plus(Plus(a, 4), 4)) == ws[2]
    ensures CodeAt(m, a, ws)
  {
    hide Plus, Load32;
    assert ws[1..][1..] == [ws[2]] && ws[1..][0] == ws[1];
    assert CodeAt(m, Plus(Plus(Plus(a, 4), 4), 4), []);
    assert CodeAt(m, Plus(Plus(a, 4), 4), [ws[2]]);
    assert CodeAt(m, Plus(a, 4), ws[1..]);
  }

  /** The trampoline is near enough for the page distance, and its pointers are aligned. */
  lemma JumpReaches(pbTarget: nat, p: nat)
    requires pbTarget < ADDRESS_LIMIT && InReach(pbTarget, p) && p % 8 == 0
    ensures InRange(PageDelta(AsAddress(p + 176), AsAddress(pbTarget)), 0x10_0000) && AsAddress(p + 176) & 7 == 0
  {
    hide AsAddress, InRange, Distance, PageNumber;
    WithinReach(pbTarget, p, 176, 0);
    AddressPage(p + 176);
    AddressPage(pbTarget);
    var m, n := (p + 176) / 0x1000, pbTarget / 0x1000;
    assert -0x7ff9_0000 <= p + 176 - pbTarget <= 0x7ff9_0000;
    PagesNear(m, n);
    AddressAligned(p + 176);
  }

  /** A patch within reach of its trampoline detours the function. */
  lemma PatchDetours(code: map<nat, bv8>, pbTarget: nat, p: nat, t: Trampoline)
    requires SIZE_OF_JMP <= t.cbRestore && t.cbRestore % 4 == 0 && Patched(code, pbTarget, p, t.cbRestore)
    requires pbTarget < ADDRESS_LIMIT && InReach(pbTarget, p) && p % 8 == 0
    ensures Detoured(code, pbTarget, p, t)
  {
    hide AsAddress, Plus, Patched, Patch, WordBytes, JmpIndirect, InRange, PageDelta, CodeAt, Load32, Load64, Run, HoldsCode, InReach;
    var cb, ws := t.cbRestore, JmpIndirect(AsAddress(pbTarget), AsAddress(p + OB_DETOUR));
    JumpReaches(pbTarget, p);
    PatchShape(AsAddress(pbTarget), AsAddress(p + OB_DETOUR));
    EightIs(pbTarget);
    forall m: Memory | HoldsCode(m, code) && HoldsTrampoline(m, p, t)
      ensures EntersDetour(m, pbTarget, t.pbDetour) && BreaksUpTo(m, pbTarget, cb)
    {
      WordOf(m, code, pbTarget, p, cb, 0, ws[0]);
      WordOf(m, code, pbTarget, p, cb, 4, ws[1]);
      WordOf(m, code, pbTarget, p, cb, 8, ws[2]);
      ThreeWords(m, AsAddress(pbTarget), ws);
      forall other: OtherSemantics, c: Core | c.mem == m
        ensures Run(other, State(AsAddress(pbTarget), c), 3) == State(AsAddress(t.pbDetour), SetX(c, X17, AsAddress(t.pbDetour)))
      {
        PatchRuns(other, AsAddress(pbTarget), AsAddress(p + OB_DETOUR), c);
      }
      forall k: nat | 12 <= k < cb && k % 4 == 0
        ensures Load32(m, AsAddress(pbTarget + k)) == 0xd41e_0000
      {
        WordOf(m, code, pbTarget, p, cb, k, 0xd41e_0000);
      }
    }
  }

  lemma WordOf(m: Memory, code: map<nat, bv8>, pbTarget: nat, p: nat, cb: nat, k: nat, w: Word)
    requires SIZE_OF_JMP <= cb && cb % 4 == 0 && k % 4 == 0 && k + 4 <= cb && Patched(code, pbTarget, p, cb) && HoldsCode(m, code)
    requires var ws := JmpIndirect(AsAddress(pbTarget), AsAddress(p + OB_DETOUR));
      |ws| == 3 && w == (if k == 0 then ws[0] else if k == 4 then ws[1] else if k == 8 then ws[2] else 0xd41e_0000)
    ensures Load32(m, AsAddress(pbTarget + k)) == w
  {
    hide AsAddress, Patched, Patch, WordBytes, JmpIndirect, Load32, HoldsCode, WordAt;
    PatchWords(pbTarget, p, cb, k);
    PatchedWord(code, pbTarget, p, cb, k, w);
    WordLoaded(m, code, pbTarget + k, w);
  }

  // ------------------------------------------------------------------------- Commits

  predicate Disjoint(e: Entry, f: Entry) {
    e.o.pbTarget + e.t.cbRestore <= f.o.pbTarget || f.o.pbTarget + f.t.cbRestore <= e.o.pbTarget
  }

  /** An attach that a commit writes and does not overwrite again, of mapped code within reach. */
  predicate Lasting(code: map<nat, bv8>, es: seq<Entry>, k: nat)
    requires k < |es|
  {
    var e := es[k];
    && !e.o.fIsRemove && (forall j | k < j < |es| :: Disjoint(e, es[j]))
    && (forall x | e.o.pbTarget <= x < e.o.pbTarget + e.t.cbRestore :: x in code)
    && e.o.pbTarget < ADDRESS_LIMIT && InReach(e.o.pbTarget, e.o.pTrampoline) && e.o.pTrampoline % 8 == 0
  }

  lemma {:induction false} LaterKept(code: map<nat, bv8>, es: seq<Entry>, e: Entry, x: nat)
    requires (forall f | f in es :: Sound(f) && Disjoint(e, f)) && e.o.pbTarget <= x < e.o.pbTarget + e.t.cbRestore && x in code
    ensures x in CommitCode(code, es) && CommitCode(code, es)[x] == code[x]
    decreases |es|
  {
    hide Patch;
    if es != [] {
      assert Disjoint(e, es[0]) && Sound(es[0]);
      LaterKept(CommitCode1(code, es[0]), es[1..], e, x);
    }
  }

  /** After a commit each function that was attached last at its place is detoured. */
  lemma {:induction false} CommitDetours(code: map<nat, bv8>, es: seq<Entry>, k: nat)
    requires (forall e | e in es :: Sound(e)) && k < |es| && Lasting(code, es, k)
    ensures Detoured(CommitCode(code, es), es[k].o.pbTarget, es[k].o.pTrampoline, es[k].t)
    decreases |es|
  {
    hide Patch, Detoured, InReach;
    var e := es[k];
    assert Sound(es[0]);
    var next := CommitCode1(code, es[0]);
    if k > 0 {
      assert forall j | k - 1 < j < |es[1..]| :: es[1..][j] == es[j + 1];
      CommitDetours(next, es[1..], k - 1);
    } else {
      forall f | f in es[1..]
        ensures Disjoint(e, f)
      {
        var j :| 0 <= j < |es[1..]| && es[1..][j] == f;
        assert es[j + 1] == f;
      }
      forall x | e.o.pbTarget <= x < e.o.pbTarget + e.t.cbRestore
        ensures x in CommitCode(code, es) && CommitCode(code, es)[x] == Patch(e.o.pbTarget, e.o.pTrampoline, e.t.cbRestore)[x - e.o.pbTarget]
      {
        LaterKept(next, es[1..], e, x);
      }
      PatchDetours(CommitCode(code, es), e.o.pbTarget, e.o.pTrampoline, e.t);
    }
  }

  /** Every attach that lasts detours its function. */
  ghost predicate LastingDetoured(before: map<nat, bv8>, code: map<nat, bv8>, es: seq<Entry>) {
    forall k | 0 <= k < |es| && Lasting(before, es, k) :: Detoured(code, es[k].o.pbTarget, es[k].o.pTrampoline, es[k].t)
  }

  lemma CommitDetoursAll(code: map<nat, bv8>, es: seq<Entry>)
    requires forall e | e in es :: Sound(e)
    ensures LastingDetoured(code, CommitCode(code, es), es)
  {
    hide Detoured, Lasting, Sound, CommitCode;
    forall k | 0 <= k < |es| && Lasting(code, es, k)
      ensures Detoured(CommitCode(code, es), es[k].o.pbTarget, es[k].o.pTrampoline, es[k].t)
    {
      CommitDetours(code, es, k);
    }
  }
}
