/** The import table that a starting process gets in memory (detours/src/uimports.cpp, included twice
  * by detours/src/creatwth.cpp): how large it is, what is written where, and what a loader that reads
  * it back finds.
  */
module UpdateImports {
  import opened PayloadLayout

  const SIZEOF_DESCRIPTOR := 20
  const STRSAFE_MAX_CCH := 0x7fff_ffff
  const QUESTION: byte := 63

  /** The two compilations of the file: 32-bit and 64-bit thunks. */
  datatype Bits = Bits32 | Bits64 {
    function Thunk(): (r: nat)
      ensures r == 4 || r == 8
    {
      if Bits32? then 4 else 8
    }

    /** IMAGE_ORDINAL_FLAG_XX + 1, then the null thunk. */
    function Pair(): (s: seq<byte>)
      ensures |s| == 2 * Thunk()
    {
      if Bits32? then Dword(0x8000_0001) + Zeros(4) else Dword(1) + Dword(0x8000_0000) + Zeros(8)
    }

    /** "32" or "64". */
    function Digits(): (s: seq<byte>)
      ensures |s| == 2 && 0 !in s
      ensures s == if Bits32? then ['3' as int, '2' as int] else ['6' as int, '4' as int]
    {
      if Bits32? then [51, 50] else [54, 52]
    }
  }

  datatype Directory = Directory(virtualAddress: nat, size: nat)

  /** What is written to the process: the table at obBase and two data directories. */
  datatype Update = Update(bytes: seq<byte>, import_: Directory, iat: Directory)

  /** The DLL names, without their terminators, and the number of old descriptors. */
  datatype Plan = Plan(bits: Bits, names: seq<seq<byte>>, nOldDlls: nat, obBase: nat)

  // ----------------------------------------------------------------------- Layout

  /** The bytes reserved for a name, in 32-bit arithmetic. */
  function PadToDword(dw: nat): nat { (dw + 3) % DWORD_LIMIT / 4 * 4 }

  function Room(name: seq<byte>): nat { PadToDword((|name| + 1) % DWORD_LIMIT) }

  function ObOld(p: Plan): nat { SIZEOF_DESCRIPTOR * (|p.names| + p.nOldDlls) }

  function ObTab(p: Plan): nat { QuadAlign(ObOld(p)) }

  /** The thunks of name `n` begin here; those of name |names| are the strings. */
  function ObThunks(p: Plan, n: nat): nat { ObTab(p) + 4 * p.bits.Thunk() * n }

  function Rooms(names: seq<seq<byte>>, n: nat): nat
    requires n <= |names|
  {
    if n == 0 then 0 else Rooms(names, n - 1) + Room(names[n - 1])
  }

  function ObStr(p: Plan, n: nat): nat
    requires n <= |p.names|
  {
    ObThunks(p, |p.names|) + Rooms(p.names, n)
  }

  function CbNew(p: Plan): nat { ObStr(p, |p.names|) }

  function Rva(p: Plan, ob: nat): (r: nat)
    ensures r < DWORD_LIMIT
  {
    (p.obBase + ob) % DWORD_LIMIT
  }

  lemma {:induction false} RoomsGrow(names: seq<seq<byte>>, m: nat, n: nat)
    requires m <= n <= |names|
    ensures Rooms(names, m) <= Rooms(names, n)
    ensures m < n ==> Rooms(names, m + 1) <= Rooms(names, n)
    decreases n
  {
    if m < n { RoomsGrow(names, m, n - 1); }
  }

  // ------------------------------------------------------------------ The "??" bits

  /** The first "??" becomes the digits. */
  function Sized(s: seq<byte>, digits: seq<byte>): (r: seq<byte>)
    requires |digits| == 2
    ensures |r| == |s|
  {
    if |s| < 2 then s
    else if s[0] == QUESTION && s[1] == QUESTION then digits + s[2..]
    else [s[0]] + Sized(s[1..], digits)
  }

  predicate Marked(s: seq<byte>, i: nat) { i + 1 < |s| && s[i] == '?' as int && s[i + 1] == '?' as int }

  lemma {:induction false} SizedSkips(s: seq<byte>, digits: seq<byte>, i: nat)
    requires |digits| == 2 && i <= |s|
    requires forall j: nat | j < i :: !Marked(s, j)
    ensures Sized(s, digits) == s[..i] + Sized(s[i..], digits)
  {
    if i > 0 {
      forall j: nat | j < i - 1 ensures !Marked(s[1..], j) { assert !Marked(s, j + 1); }
      assert !Marked(s, 0);
      SizedSkips(s[1..], digits, i - 1);
      assert s[1..][i - 1..] == s[i..] && s[..i] == [s[0]] + s[1..][..i - 1];
      if |s| < 2 { assert s[i..] == []; }
    } else {
      assert s[0..] == s;
    }
  }

  lemma SizedUnmarked(s: seq<byte>, digits: seq<byte>)
    requires |digits| == 2 && forall j: nat | j + 1 < |s| :: !Marked(s, j)
    ensures Sized(s, digits) == s
  {
    if |s| > 0 {
      SizedSkips(s, digits, |s| - 1);
      assert s[..|s| - 1] + s[|s| - 1..] == s;
    }
  }

  /** Only the name is changed, because only zeros follow it. */
  lemma {:induction false} SizedBeforeZeros(s: seq<byte>, z: nat, digits: seq<byte>)
    requires |digits| == 2
    ensures Sized(s + Zeros(z), digits) == Sized(s, digits) + Zeros(z)
    decreases |s|
  {
    var t := s + Zeros(z);
    if |s| <= 1 {
      forall j: nat | j + 1 < |t| ensures !Marked(t, j) { assert t[j + 1] == 0; }
      SizedUnmarked(t, digits);
    } else {
      assert t[1..] == s[1..] + Zeros(z) && t[2..] == s[2..] + Zeros(z);
      SizedBeforeZeros(s[1..], z, digits);
    }
  }

  lemma {:induction false} SizedHasNoNul(s: seq<byte>, digits: seq<byte>)
    requires |digits| == 2 && 0 !in digits && 0 !in s
    ensures 0 !in Sized(s, digits)
  {
    if |s| >= 2 { SizedHasNoNul(s[1..], digits); }
  }

  // --------------------------------------------------------------------- The buffer

  predicate At(b: seq<byte>, o: nat, s: seq<byte>) {
    o + |s| <= |b| && forall k | 0 <= k < |s| :: b[o + k] == s[k]
  }

  /** `c` is `b` but for the bytes of [lo, hi). */
  predicate Outside(b: seq<byte>, c: seq<byte>, lo: nat, hi: nat) {
    |c| == |b| && forall k | 0 <= k < |b| && !(lo <= k < hi) :: c[k] == b[k]
  }

  lemma AtKept(b: seq<byte>, c: seq<byte>, o: nat, s: seq<byte>, lo: nat, hi: nat)
    requires At(b, o, s) && Outside(b, c, lo, hi) && (o + |s| <= lo || hi <= o)
    ensures At(c, o, s)
  {}

  method Put(a: array<byte>, o: nat, s: seq<byte>)
    requires o + |s| <= a.Length
    modifies a
    ensures At(a[..], o, s) && Outside(old(a[..]), a[..], o, o + |s|)
  {
    for k := 0 to |s|
      invariant forall j | 0 <= j < k :: a[o + j] == s[j]
      invariant forall j | 0 <= j < a.Length && !(o <= j < o + k) :: a[j] == old(a[j])
    {
      a[o + k] := s[k];
    }
  }

  /** The library's bounded copy: it fails on a bound of zero or above STRSAFE_MAX_CCH and on a name that
    * does not fit with its terminator.
    */
  method StringCchCopyA(a: array<byte>, o: nat, cch: nat, src: seq<byte>) returns (ok: bool)
    requires o + cch <= a.Length
    modifies a
    ensures ok <==> 0 < cch <= STRSAFE_MAX_CCH && |src| < cch
    ensures ok ==> At(a[..], o, src + [0]) && Outside(old(a[..]), a[..], o, o + |src| + 1)
  {
    ok := 0 < cch <= STRSAFE_MAX_CCH && |src| < cch;
    if ok { Put(a, o, src + [0]); }
  }

  lemma SizedMarked(s: seq<byte>, digits: seq<byte>)
    requires |digits| == 2 && Marked(s, 0)
    ensures Sized(s, digits) == digits + s[2..]
  {}

  /** Replacing the first "??" at or after `o`. */
  lemma SizedAt(b: seq<byte>, o: nat, i: nat, digits: seq<byte>)
    requires |digits| == 2 && o <= i && i + 1 < |b|
    requires Marked(b[o..], i - o) && forall j: nat | j < i - o :: !Marked(b[o..], j)
    ensures b[i := digits[0]][i + 1 := digits[1]] == b[..o] + Sized(b[o..], digits)
  {
    hide Sized;
    SizedSkips(b[o..], digits, i - o);
    assert b[o..][i - o..] == b[i..] && b[o..][..i - o] == b[o..i];
    assert Marked(b[i..], 0);
    SizedMarked(b[i..], digits);
    assert b[i..][2..] == b[i + 2..];
    Reassembled(b, o, i, digits);
  }

  lemma Reassembled(b: seq<byte>, o: nat, i: nat, digits: seq<byte>)
    requires |digits| == 2 && o <= i && i + 1 < |b|
    ensures b[i := digits[0]][i + 1 := digits[1]] == b[..o] + (b[o..i] + (digits + b[i + 2..]))
  {}

  method ReplaceOptionalSizeA(a: array<byte>, o: nat, digits: seq<byte>)
    requires o <= a.Length && |digits| == 2
    modifies a
    ensures a[..] == old(a[..o]) + Sized(old(a[o..]), digits)
  {
    hide Sized;
    var i, cch := o, a.Length - o;
    ghost var b := a[..];
    assert b[..o] == a[..o] && b[o..] == a[o..];
    while cch >= 2
      invariant o <= i <= a.Length && cch == a.Length - i && a[..] == b
      invariant forall j: nat | j < i - o :: !Marked(b[o..], j)
      decreases cch
    {
      if a[i] == QUESTION && a[i + 1] == QUESTION {
        SizedAt(b, o, i, digits);
        a[i], a[i + 1] := digits[0], digits[1];
        assert a[..] == b[i := digits[0]][i + 1 := digits[1]];
        return;
      }
      assert !Marked(b[o..], i - o);
      i, cch := i + 1, cch - 1;
    }
    SizedUnmarked(b[o..], digits);
    assert b[..o] + b[o..] == b;
  }

  // ------------------------------------------------------------------- One new DLL

  function NameBytes(p: Plan, n: nat): (s: seq<byte>)
    requires n < |p.names|
  {
    Sized(p.names[n], p.bits.Digits()) + Zeros(if |p.names[n]| < Room(p.names[n]) then Room(p.names[n]) - |p.names[n]| else 0)
  }

  /** OriginalFirstThunk, TimeDateStamp, ForwarderChain, Name, FirstThunk. */
  function DescriptorBytes(p: Plan, n: nat): (s: seq<byte>)
    requires n < |p.names|
    ensures |s| == SIZEOF_DESCRIPTOR
  {
    Dword(Rva(p, ObThunks(p, n))) + Zeros(8) + Dword(Rva(p, ObStr(p, n)))
    + Dword(Rva(p, ObThunks(p, n) + 2 * p.bits.Thunk()))
  }

  /** Two thunks for the lookup table and two for the addresses. */
  function ThunkBytes(p: Plan): (s: seq<byte>)
    ensures |s| == 4 * p.bits.Thunk()
  {
    p.bits.Pair() + p.bits.Pair()
  }

  predicate Entry(p: Plan, b: seq<byte>, n: nat)
    requires n < |p.names|
  {
    && At(b, SIZEOF_DESCRIPTOR * n, DescriptorBytes(p, n))
    && At(b, ObThunks(p, n), ThunkBytes(p))
    && At(b, ObStr(p, n), NameBytes(p, n))
  }

  /** The first `n` DLLs are in, the old descriptors follow the room of all of them, and the rest of the
    * strings is zero.
    */
  predicate Filled(p: Plan, old_: seq<byte>, b: seq<byte>, n: nat)
    requires n <= |p.names|
  {
    Others(p, old_, b, n) && forall k | ObStr(p, n) <= k < |b| :: b[k] == 0
  }

  predicate Others(p: Plan, old_: seq<byte>, b: seq<byte>, n: nat)
    requires n <= |p.names|
  {
    && |b| == CbNew(p) && |old_| == SIZEOF_DESCRIPTOR * p.nOldDlls
    && (forall j | 0 <= j < n :: Entry(p, b, j) && |p.names[j]| < Room(p.names[j]))
    && At(b, SIZEOF_DESCRIPTOR * |p.names|, old_)
    && (forall k | ObOld(p) <= k < ObTab(p) && k < |b| :: b[k] == 0)
  }

  /** [lo, hi) is one of the places of DLL `n`. */
  predicate Owns(p: Plan, n: nat, lo: nat, hi: nat)
    requires n < |p.names|
  {
    || (lo == SIZEOF_DESCRIPTOR * n && hi == SIZEOF_DESCRIPTOR * (n + 1))
    || (lo == ObThunks(p, n) && hi == ObThunks(p, n + 1))
    || (lo == ObStr(p, n) && hi == ObStr(p, n + 1))
  }

  lemma Places(p: Plan, n: nat)
    requires n < |p.names|
    ensures SIZEOF_DESCRIPTOR * (n + 1) <= ObOld(p) <= ObTab(p) <= ObThunks(p, n)
    ensures ObThunks(p, n) + 4 * p.bits.Thunk() == ObThunks(p, n + 1) <= ObStr(p, 0) <= ObStr(p, n)
    ensures ObStr(p, n) + Room(p.names[n]) == ObStr(p, n + 1) <= CbNew(p)
  {
    ThunksGrow(p, 0, n);
    ThunksGrow(p, n + 1, |p.names|);
    RoomsGrow(p.names, 0, n);
    RoomsGrow(p.names, n, |p.names|);
  }

  lemma ThunksGrow(p: Plan, j: nat, n: nat)
    requires j <= n
    ensures ObThunks(p, j) <= ObThunks(p, n) && ObThunks(p, n) + 4 * p.bits.Thunk() == ObThunks(p, n + 1)
  {
    hide ObTab;
    if p.bits.Thunk() == 4 {
      assert ObThunks(p, n) == ObTab(p) + 16 * n && ObThunks(p, j) == ObTab(p) + 16 * j && ObThunks(p, n + 1) == ObTab(p) + 16 * (n + 1);
    } else {
      assert ObThunks(p, n) == ObTab(p) + 32 * n && ObThunks(p, j) == ObTab(p) + 32 * j && ObThunks(p, n + 1) == ObTab(p) + 32 * (n + 1);
    }
  }

  lemma PlacesInOrder(p: Plan, j: nat, n: nat)
    requires j < n < |p.names|
    ensures ObThunks(p, j + 1) <= ObThunks(p, n) && ObStr(p, j + 1) <= ObStr(p, n)
  {
    ThunksGrow(p, j + 1, n);
    RoomsGrow(p.names, j, n);
  }

  /** [lo, hi) meets none of the places of DLL `j`. */
  predicate Clear(p: Plan, j: nat, lo: nat, hi: nat)
    requires j < |p.names|
  {
    && (SIZEOF_DESCRIPTOR * (j + 1) <= lo || hi <= SIZEOF_DESCRIPTOR * j)
    && (ObThunks(p, j + 1) <= lo || hi <= ObThunks(p, j))
    && (ObStr(p, j + 1) <= lo || hi <= ObStr(p, j))
  }

  lemma OwnedIsClear(p: Plan, j: nat, n: nat, lo: nat, hi: nat)
    requires j < n < |p.names| && Owns(p, n, lo, hi)
    ensures Clear(p, j, lo, hi)
    ensures hi <= ObTab(p) ==> hi <= SIZEOF_DESCRIPTOR * |p.names|
  {
    Places(p, j);
    Places(p, n);
    PlacesInOrder(p, j, n);
    hide ObStr, ObThunks, ObTab, CbNew, Room;
  }

  lemma EntryKept(p: Plan, b: seq<byte>, c: seq<byte>, j: nat, lo: nat, hi: nat)
    requires j < |p.names| && |p.names[j]| < Room(p.names[j])
    requires Entry(p, b, j) && Outside(b, c, lo, hi) && Clear(p, j, lo, hi)
    ensures Entry(p, c, j)
  {
    Places(p, j);
    assert |NameBytes(p, j)| == Room(p.names[j]);
    hide At, Outside, ObStr, ObThunks, ObTab, ObOld, CbNew, Room, NameBytes, ThunkBytes, DescriptorBytes;
    AtKept(b, c, SIZEOF_DESCRIPTOR * j, DescriptorBytes(p, j), lo, hi);
    AtKept(b, c, ObThunks(p, j), ThunkBytes(p), lo, hi);
    AtKept(b, c, ObStr(p, j), NameBytes(p, j), lo, hi);
  }

  lemma RoomIsEnough(name: seq<byte>)
    requires |name| < STRSAFE_MAX_CCH
    ensures |name| < Room(name) == Exact(name)
  {
    assert (|name| + 1) % DWORD_LIMIT == |name| + 1 && (|name| + 4) % DWORD_LIMIT == |name| + 4;
    assert (|name| + 4) / 4 == |name| / 4 + 1;
  }

  lemma NameInPlace(p: Plan, b: seq<byte>, c: seq<byte>, d: seq<byte>, n: nat)
    requires n < |p.names| && |b| == CbNew(p)
    requires forall k | ObStr(p, n) <= k < |b| :: b[k] == 0
    requires |p.names[n]| < Room(p.names[n])
    requires At(c, ObStr(p, n), p.names[n] + [0])
    requires Outside(b, c, ObStr(p, n), ObStr(p, n) + |p.names[n]| + 1)
    requires ObStr(p, n) <= |c| && d == c[..ObStr(p, n)] + Sized(c[ObStr(p, n)..], p.bits.Digits())
    ensures At(d, ObStr(p, n), NameBytes(p, n)) && Outside(b, d, ObStr(p, n), ObStr(p, n + 1))
    ensures forall k | ObStr(p, n + 1) <= k < |d| :: d[k] == 0
  {
    Places(p, n);
    var o, name, digits := ObStr(p, n), p.names[n], p.bits.Digits();
    var z := |b| - o - |name|;
    assert c[o..] == name + Zeros(z) by {
      forall k | 0 <= k < |b| - o ensures c[o..][k] == (name + Zeros(z))[k] {
        if k < |name| { assert c[o + k] == (name + [0])[k]; }
        else if k == |name| { assert c[o + |name|] == (name + [0])[|name|]; }
      }
    }
    SizedBeforeZeros(name, z, digits);
    assert d == c[..o] + (Sized(name, digits) + Zeros(z));
    hide Sized, Rooms, Room, Bits.Digits, Bits.Thunk, ObThunks, ObStr;
  }

  /** `n` names are in; the copy of the next one fails if it has to. */
  method FillName(a: array<byte>, p: Plan, n: nat, obStr: nat) returns (ok: bool)
    requires n < |p.names| && a.Length == CbNew(p) && obStr == ObStr(p, n)
    requires forall k | ObStr(p, n) <= k < a.Length :: a[k] == 0
    modifies a
    ensures ok <==> CbNew(p) - ObStr(p, n) <= STRSAFE_MAX_CCH && |p.names[n]| < CbNew(p) - ObStr(p, n)
    ensures ok ==> |p.names[n]| < Room(p.names[n])
    ensures ok ==> At(a[..], ObStr(p, n), NameBytes(p, n)) && Outside(old(a[..]), a[..], ObStr(p, n), ObStr(p, n + 1))
    ensures ok ==> forall k | ObStr(p, n + 1) <= k < a.Length :: a[k] == 0
  {
    hide Sized, Rooms, Room, Bits.Digits, Bits.Thunk, Bits.Pair, ObThunks, ObStr, NameBytes, Zeros;
    Places(p, n);
    ghost var b := a[..];
    ok := StringCchCopyA(a, obStr, a.Length - obStr, p.names[n]);
    if !ok { return; }
    RoomIsEnough(p.names[n]);
    ghost var c := a[..];
    ReplaceOptionalSizeA(a, obStr, p.bits.Digits());
    NameInPlace(p, b, c, a[..], n);
    assert forall k | ObStr(p, n + 1) <= k < a.Length :: a[k] == a[..][k];
  }

  lemma OwnedMissesTheRest(p: Plan, n: nat, lo: nat, hi: nat)
    requires n < |p.names| && Owns(p, n, lo, hi)
    ensures hi <= SIZEOF_DESCRIPTOR * |p.names| || ObTab(p) <= lo
  {
    Places(p, n);
  }

  /** What stays true of the parts that are not DLL `n`. */
  lemma RestKept(p: Plan, old_: seq<byte>, b: seq<byte>, c: seq<byte>, n: nat, lo: nat, hi: nat)
    requires n < |p.names| && Outside(b, c, lo, hi) && Owns(p, n, lo, hi)
    requires Others(p, old_, b, n)
    ensures Others(p, old_, c, n)
  {
    OwnedMissesTheRest(p, n, lo, hi);
    hide At, ObStr, ObThunks, CbNew, Room, Entry, Owns, Clear;
    forall j | 0 <= j < n ensures Entry(p, c, j) {
      OwnedIsClear(p, j, n, lo, hi);
      EntryKept(p, b, c, j, lo, hi);
    }
    AtKept(b, c, SIZEOF_DESCRIPTOR * |p.names|, old_, lo, hi);
  }

  lemma EntryFilled(p: Plan, old_: seq<byte>, b0: seq<byte>, b1: seq<byte>, b2: seq<byte>, b3: seq<byte>, n: nat)
    requires n < |p.names| && Filled(p, old_, b0, n) && |p.names[n]| < Room(p.names[n])
    requires At(b1, ObStr(p, n), NameBytes(p, n)) && Outside(b0, b1, ObStr(p, n), ObStr(p, n + 1))
    requires forall k | ObStr(p, n + 1) <= k < |b1| :: b1[k] == 0
    requires At(b2, SIZEOF_DESCRIPTOR * n, DescriptorBytes(p, n))
    requires Outside(b1, b2, SIZEOF_DESCRIPTOR * n, SIZEOF_DESCRIPTOR * (n + 1))
    requires At(b3, ObThunks(p, n), ThunkBytes(p)) && Outside(b2, b3, ObThunks(p, n), ObThunks(p, n + 1))
    ensures Filled(p, old_, b3, n + 1)
  {
    Places(p, n);
    assert |NameBytes(p, n)| == Room(p.names[n]);
    hide At, Entry, ObStr, ObThunks, ObTab, ObOld, CbNew, Room, NameBytes, ThunkBytes, DescriptorBytes, Others;
    RestKept(p, old_, b0, b1, n, ObStr(p, n), ObStr(p, n + 1));
    RestKept(p, old_, b1, b2, n, SIZEOF_DESCRIPTOR * n, SIZEOF_DESCRIPTOR * (n + 1));
    RestKept(p, old_, b2, b3, n, ObThunks(p, n), ObThunks(p, n + 1));
    AtKept(b1, b2, ObStr(p, n), NameBytes(p, n), SIZEOF_DESCRIPTOR * n, SIZEOF_DESCRIPTOR * (n + 1));
    AtKept(b2, b3, ObStr(p, n), NameBytes(p, n), ObThunks(p, n), ObThunks(p, n + 1));
    AtKept(b2, b3, SIZEOF_DESCRIPTOR * n, DescriptorBytes(p, n), ObThunks(p, n), ObThunks(p, n + 1));
    assert Entry(p, b3, n) by { EntryIs(p, b3, n); }
    OneMore(p, old_, b3, n);
  }

  lemma EntryIs(p: Plan, b: seq<byte>, n: nat)
    requires n < |p.names| && At(b, SIZEOF_DESCRIPTOR * n, DescriptorBytes(p, n))
    requires At(b, ObThunks(p, n), ThunkBytes(p)) && At(b, ObStr(p, n), NameBytes(p, n))
    ensures Entry(p, b, n)
  {}

  lemma OneMore(p: Plan, old_: seq<byte>, b: seq<byte>, n: nat)
    requires n < |p.names| && Others(p, old_, b, n) && Entry(p, b, n) && |p.names[n]| < Room(p.names[n])
    ensures Others(p, old_, b, n + 1)
  {
    hide Entry, At;
  }

  // ------------------------------------------------------------------ When it works

  /** The name, its terminator and the padding to a multiple of four, without wrap-around. */
  function Exact(name: seq<byte>): nat { |name| / 4 * 4 + 4 }

  function Exacts(names: seq<seq<byte>>, n: nat): nat
    requires n <= |names|
  {
    if n == 0 then 0 else Exacts(names, n - 1) + Exact(names[n - 1])
  }

  /** The table has a 32-bit size and the strings stay within the bound of the copy. */
  predicate Fits(p: Plan) {
    var strings := Exacts(p.names, |p.names|);
    ObThunks(p, |p.names|) + strings < DWORD_LIMIT && strings <= STRSAFE_MAX_CCH
  }

  lemma {:induction false} RoomsExact(names: seq<seq<byte>>, n: nat)
    requires n <= |names| && forall j | 0 <= j < n :: |names[j]| < STRSAFE_MAX_CCH
    ensures Rooms(names, n) == Exacts(names, n)
  {
    hide Room, Exact;
    if n > 0 {
      RoomsExact(names, n - 1);
      RoomIsEnough(names[n - 1]);
    }
  }

  lemma {:induction false} ExactsBound(names: seq<seq<byte>>, n: nat)
    requires n <= |names|
    ensures forall j | 0 <= j < n :: |names[j]| < Exacts(names, n)
  {
    if n > 0 { ExactsBound(names, n - 1); }
  }

  lemma FittingIsRoomy(p: Plan, n: nat)
    requires n < |p.names| && Fits(p)
    ensures CbNew(p) < DWORD_LIMIT
    ensures CbNew(p) - ObStr(p, n) <= STRSAFE_MAX_CCH && |p.names[n]| < CbNew(p) - ObStr(p, n)
  {
    ExactsBound(p.names, |p.names|);
    RoomsExact(p.names, |p.names|);
    RoomIsEnough(p.names[n]);
    Places(p, n);
  }

  lemma RoomyIsFitting(p: Plan)
    requires CbNew(p) < DWORD_LIMIT
    requires forall n | 0 <= n < |p.names| ::
               CbNew(p) - ObStr(p, n) <= STRSAFE_MAX_CCH && |p.names[n]| < CbNew(p) - ObStr(p, n)
    ensures Fits(p)
  {
    RoomsExact(p.names, |p.names|);
    if |p.names| > 0 { assert CbNew(p) - ObStr(p, 0) == Rooms(p.names, |p.names|); }
  }

  // --------------------------------------------------------------------- The update

  method DWordAdd(x: nat, y: nat) returns (r: Option<nat>)
    ensures r == if x + y < DWORD_LIMIT then Some(x + y) else None
  {
    if x + y < DWORD_LIMIT { r := Some(x + y); } else { r := None; }
  }

  method DWordMult(x: nat, y: nat) returns (r: Option<nat>)
    ensures r == if x * y < DWORD_LIMIT then Some(x * y) else None
  {
    if x * y < DWORD_LIMIT { r := Some(x * y); } else { r := None; }
  }

  function PadToDwordPtr(dw: nat): nat { (dw + 7) % DWORD_LIMIT / 8 * 8 }

  lemma PaddingOverflows(dw: nat)
    requires dw < DWORD_LIMIT
    ensures PadToDwordPtr(dw) < dw <==> QuadAlign(dw) >= DWORD_LIMIT
    ensures PadToDwordPtr(dw) >= dw ==> PadToDwordPtr(dw) == QuadAlign(dw)
  {
    if dw + 7 >= DWORD_LIMIT {
      assert (dw + 7) % DWORD_LIMIT == dw + 7 - DWORD_LIMIT;
    } else {
      assert (dw + 7) % DWORD_LIMIT == dw + 7;
    }
  }

  method MeasureTables(p: Plan) returns (obDll: Option<nat>)
    ensures obDll == if ObStr(p, 0) < DWORD_LIMIT then Some(ObStr(p, 0)) else None
  {
    hide PadToDwordPtr, QuadAlign;
    var nDlls := |p.names|;
    assert ObStr(p, 0) == ObTab(p) + 4 * p.bits.Thunk() * nDlls;
    var obRem := DWordMult(SIZEOF_DESCRIPTOR, nDlls);
    if obRem.None? { return None; }
    var obOld := DWordAdd(obRem.value, SIZEOF_DESCRIPTOR * p.nOldDlls);
    if obOld.None? { return None; }
    assert obOld.value == ObOld(p);
    var obTab := PadToDwordPtr(obOld.value);
    PaddingOverflows(obOld.value);
    if obTab < obOld.value { return None; }
    var stSize := DWordMult(p.bits.Thunk() * 4, nDlls);
    if stSize.None? { return None; }
    obDll := DWordAdd(obTab, stSize.value);
  }

  /** The size of the new table, or None as soon as a step overflows: exactly when the whole does. */
  method Measure(p: Plan) returns (cbNew: Option<nat>)
    ensures cbNew == if CbNew(p) < DWORD_LIMIT then Some(CbNew(p)) else None
  {
    hide ObThunks, Room;
    RoomsGrow(p.names, 0, |p.names|);
    cbNew := MeasureTables(p);
    if cbNew.None? { return; }
    for n := 0 to |p.names|
      invariant cbNew == Some(ObStr(p, n)) && ObStr(p, n) < DWORD_LIMIT
    {
      RoomsGrow(p.names, n, |p.names|);
      cbNew := DWordAdd(cbNew.value, Room(p.names[n]));
      if cbNew.None? { return None; }
    }
  }

  lemma TablesFit(p: Plan)
    ensures SIZEOF_DESCRIPTOR * |p.names| + SIZEOF_DESCRIPTOR * p.nOldDlls == ObOld(p) <= ObTab(p) <= ObStr(p, 0) <= CbNew(p)
  {
    RoomsGrow(p.names, 0, |p.names|);
  }

  lemma NothingFilled(p: Plan, old_: seq<byte>, b: seq<byte>, c: seq<byte>)
    requires |b| == CbNew(p) && |old_| == SIZEOF_DESCRIPTOR * p.nOldDlls
    requires forall k | 0 <= k < |b| :: b[k] == 0
    requires At(c, SIZEOF_DESCRIPTOR * |p.names|, old_)
    requires Outside(b, c, SIZEOF_DESCRIPTOR * |p.names|, SIZEOF_DESCRIPTOR * |p.names| + |old_|)
    ensures Filled(p, old_, c, 0)
  {
    TablesFit(p);
    hide At, ObTab, ObOld, ObStr, CbNew;
  }

  /** The old descriptors behind the room of the new ones, then every new DLL. */
  method FillTable(a: array<byte>, p: Plan, old_: seq<byte>) returns (obStr: Option<nat>)
    requires a.Length == CbNew(p) < DWORD_LIMIT && |old_| == SIZEOF_DESCRIPTOR * p.nOldDlls
    requires forall k | 0 <= k < a.Length :: a[k] == 0
    modifies a
    ensures obStr.Some? <==> Fits(p)
    ensures obStr.Some? ==> obStr.value == CbNew(p) && Filled(p, old_, a[..], |p.names|)
  {
    hide At, Fits, Entry, ObTab, ObOld, ObThunks, ObStr, Room, NameBytes, DescriptorBytes, ThunkBytes, Others;
    TablesFit(p);
    ghost var b := a[..];
    Put(a, SIZEOF_DESCRIPTOR * |p.names|, old_);
    NothingFilled(p, old_, b, a[..]);
    var ob := ObStr(p, 0);
    for n := 0 to |p.names|
      invariant ob == ObStr(p, n) && Filled(p, old_, a[..], n)
      invariant forall j | 0 <= j < n :: CbNew(p) - ObStr(p, j) <= STRSAFE_MAX_CCH && |p.names[j]| < CbNew(p) - ObStr(p, j)
    {
      Places(p, n);
      ghost var b0 := a[..];
      var ok := FillName(a, p, n, ob);
      if !ok {
        if Fits(p) { FittingIsRoomy(p, n); }
        return None;
      }
      ghost var b1 := a[..];
      Put(a, SIZEOF_DESCRIPTOR * n, DescriptorBytes(p, n));
      ghost var b2 := a[..];
      Put(a, ObThunks(p, n), ThunkBytes(p));
      EntryFilled(p, old_, b0, b1, b2, a[..], n);
      ob := ob + Room(p.names[n]);
    }
    RoomyIsFitting(p);
    obStr := Some(ob);
  }

  /** The old descriptors, if there is an import directory; else zeros. */
  function OldDescriptors(import_: Directory, readable: seq<byte>): (s: seq<byte>)
    requires import_.virtualAddress != 0 ==> import_.size / SIZEOF_DESCRIPTOR * SIZEOF_DESCRIPTOR <= |readable|
    ensures |s| == 20 * (import_.size / 20)
    ensures forall k | 0 <= k < |s| :: s[k] == if import_.virtualAddress != 0 then readable[k] else 0
  {
    var cb := import_.size / SIZEOF_DESCRIPTOR * SIZEOF_DESCRIPTOR;
    if import_.virtualAddress != 0 then readable[..cb] else Zeros(cb)
  }

  predicate Readable(import_: Directory, readable: seq<byte>) {
    import_.virtualAddress != 0 ==> import_.size / SIZEOF_DESCRIPTOR * SIZEOF_DESCRIPTOR <= |readable|
  }

  lemma FittingMeasures(p: Plan, obBase: nat)
    ensures Fits(p) ==> CbNew(p) < DWORD_LIMIT
    ensures CbNew(p.(obBase := obBase)) == CbNew(p) && Fits(p.(obBase := obBase)) == Fits(p)
  {
    if Fits(p) && |p.names| > 0 { FittingIsRoomy(p, 0); }
  }

  /** The plan for a list of DLLs; `near` is where a block of a size is allocated, relative to the module. */
  function PlanFor(bits: Bits, plpDlls: seq<seq<byte>>, import_: Directory, near: nat -> Option<int>): Plan {
    var p := Plan(bits, plpDlls, import_.size / SIZEOF_DESCRIPTOR, 0);
    match near(CbNew(p))
    case None => p
    case Some(pbNewIid) => p.(obBase := pbNewIid % DWORD_LIMIT)
  }

  /** `readable` is what the process lets be read at its import directory. */
  method UpdateImports(bits: Bits, plpDlls: seq<seq<byte>>, import_: Directory, iat: Directory,
                       readable: seq<byte>, near: nat -> Option<int>) returns (r: Option<Update>)
    ensures var p := PlanFor(bits, plpDlls, import_, near);
      r.Some? <==> Fits(p) && near(CbNew(p)).Some? && Readable(import_, readable)
    ensures var p := PlanFor(bits, plpDlls, import_, near);
      r.Some? ==>
        && Filled(p, OldDescriptors(import_, readable), r.value.bytes, |plpDlls|)
        && r.value.import_ == Directory(p.obBase, CbNew(p))
        && r.value.iat == if iat.virtualAddress == 0 then Directory(p.obBase, CbNew(p)) else iat
  {
    hide Fits, CbNew, Filled, OldDescriptors;
    var plan := Plan(bits, plpDlls, import_.size / SIZEOF_DESCRIPTOR, 0);
    FittingMeasures(plan, 0);
    var cbNew := Measure(plan);
    if cbNew.None? {
      FittingMeasures(plan, PlanFor(bits, plpDlls, import_, near).obBase);
      return None;
    }
    var pbNew := new byte[cbNew.value](_ => 0);
    var pbNewIid := near(cbNew.value);
    if pbNewIid.None? { return None; }
    FittingMeasures(plan, pbNewIid.value % DWORD_LIMIT);
    plan := plan.(obBase := pbNewIid.value % DWORD_LIMIT);
    if import_.virtualAddress != 0 && plan.nOldDlls * SIZEOF_DESCRIPTOR > |readable| { return None; }
    var obStr := FillTable(pbNew, plan, OldDescriptors(import_, readable));
    if obStr.None? { return None; }
    assert pbNew[..obStr.value] == pbNew[..];
    var directory := Directory(plan.obBase, cbNew.value);
    r := Some(Update(pbNew[..obStr.value], directory, if iat.virtualAddress == 0 then directory else iat));
  }

  // ----------------------------------------------------------------- What a loader finds

  function DwordAt(b: seq<byte>, o: nat): nat
    requires o + 4 <= |b|
  {
    FromDword(b[o..o + 4])
  }

  function ThunkAt(b: seq<byte>, o: nat, bits: Bits): nat
    requires o + bits.Thunk() <= |b|
  {
    if bits.Bits32? then DwordAt(b, o) else DwordAt(b, o) + DWORD_LIMIT * DwordAt(b, o + 4)
  }

  function CString(b: seq<byte>, o: nat): seq<byte>
    requires o <= |b|
    decreases |b| - o
  {
    if o == |b| || b[o] == 0 then [] else [b[o]] + CString(b, o + 1)
  }

  /** The first ordinal. */
  function Ordinal1(bits: Bits): nat { if bits.Bits32? then 0x8000_0001 else 0x8000_0000_0000_0001 }

  /** What one descriptor leads to, by way of its RVAs alone. */
  datatype Loaded = Loaded(lookup: seq<nat>, addresses: seq<nat>, name: seq<byte>)

  predicate Leads(b: seq<byte>, n: nat, obBase: nat, bits: Bits) {
    && SIZEOF_DESCRIPTOR * (n + 1) <= |b|
    && obBase <= DwordAt(b, SIZEOF_DESCRIPTOR * n) && DwordAt(b, SIZEOF_DESCRIPTOR * n) - obBase + 2 * bits.Thunk() <= |b|
    && obBase <= DwordAt(b, SIZEOF_DESCRIPTOR * n + 12) <= obBase + |b|
    && obBase <= DwordAt(b, SIZEOF_DESCRIPTOR * n + 16) && DwordAt(b, SIZEOF_DESCRIPTOR * n + 16) - obBase + 2 * bits.Thunk() <= |b|
  }

  function Load(b: seq<byte>, n: nat, obBase: nat, bits: Bits): Loaded
    requires Leads(b, n, obBase, bits)
  {
    var o := SIZEOF_DESCRIPTOR * n;
    var l, a := DwordAt(b, o) - obBase, DwordAt(b, o + 16) - obBase;
    Loaded([ThunkAt(b, l, bits), ThunkAt(b, l + bits.Thunk(), bits)],
           [ThunkAt(b, a, bits), ThunkAt(b, a + bits.Thunk(), bits)],
           CString(b, DwordAt(b, o + 12) - obBase))
  }

  lemma AtIs(b: seq<byte>, o: nat, s: seq<byte>)
    requires At(b, o, s)
    ensures b[o..o + |s|] == s
  {}

  lemma AtParts(b: seq<byte>, o: nat, s: seq<byte>, t: seq<byte>)
    requires At(b, o, s + t)
    ensures At(b, o, s) && At(b, o + |s|, t)
  {
    forall k | 0 <= k < |s| ensures b[o + k] == s[k] { assert (s + t)[k] == s[k]; }
    forall k | 0 <= k < |t| ensures b[o + |s| + k] == t[k] { assert b[o + (|s| + k)] == (s + t)[|s| + k]; }
  }

  lemma DwordIsAt(b: seq<byte>, o: nat, x: nat)
    requires x < DWORD_LIMIT && At(b, o, Dword(x))
    ensures o + 4 <= |b| && DwordAt(b, o) == x
  {
    AtIs(b, o, Dword(x));
    DwordRoundTrip(x);
  }

  lemma PairIsAt(b: seq<byte>, o: nat, bits: Bits)
    requires At(b, o, bits.Pair())
    ensures o + 2 * bits.Thunk() <= |b|
    ensures ThunkAt(b, o, bits) == Ordinal1(bits) && ThunkAt(b, o + bits.Thunk(), bits) == 0
  {
    hide At, Dword, DwordAt;
    if bits.Bits32? {
      AtParts(b, o, Dword(0x8000_0001), Zeros(4));
      DwordIsAt(b, o, 0x8000_0001);
      ZeroIsAt(b, o + 4);
    } else {
      assert Zeros(8) == Zeros(4) + Zeros(4);
      AtParts(b, o, Dword(1) + Dword(0x8000_0000), Zeros(8));
      AtParts(b, o, Dword(1), Dword(0x8000_0000));
      AtParts(b, o + 8, Zeros(4), Zeros(4));
      DwordIsAt(b, o, 1);
      DwordIsAt(b, o + 4, 0x8000_0000);
      ZeroIsAt(b, o + 8);
      ZeroIsAt(b, o + 12);
    }
  }

  lemma ZeroIsAt(b: seq<byte>, o: nat)
    requires At(b, o, Zeros(4))
    ensures o + 4 <= |b| && DwordAt(b, o) == 0
  {
    assert Dword(0) == Zeros(4);
    DwordIsAt(b, o, 0);
  }

  lemma {:induction false} CStringIs(b: seq<byte>, o: nat, s: seq<byte>)
    requires 0 !in s && At(b, o, s) && o + |s| < |b| && b[o + |s|] == 0
    ensures CString(b, o) == s
    decreases |s|
  {
    if s != [] {
      assert b[o] == s[0];
      forall k | 0 <= k < |s| - 1 ensures b[o + 1 + k] == s[1..][k] { assert b[o + (k + 1)] == s[k + 1]; }
      CStringIs(b, o + 1, s[1..]);
    }
  }

  lemma FieldsOf(p: Plan, b: seq<byte>, n: nat)
    requires n < |p.names| && At(b, SIZEOF_DESCRIPTOR * n, DescriptorBytes(p, n))
    ensures SIZEOF_DESCRIPTOR * (n + 1) <= |b|
    ensures DwordAt(b, SIZEOF_DESCRIPTOR * n) == Rva(p, ObThunks(p, n))
    ensures DwordAt(b, SIZEOF_DESCRIPTOR * n + 12) == Rva(p, ObStr(p, n))
    ensures DwordAt(b, SIZEOF_DESCRIPTOR * n + 16) == Rva(p, ObThunks(p, n) + 2 * p.bits.Thunk())
  {
    hide At, Dword, DwordAt, ObThunks, ObStr, Rva, Bits.Thunk;
    var o := SIZEOF_DESCRIPTOR * n;
    var l, m, a := Rva(p, ObThunks(p, n)), Rva(p, ObStr(p, n)), Rva(p, ObThunks(p, n) + 2 * p.bits.Thunk());
    AtParts(b, o, Dword(l) + Zeros(8) + Dword(m), Dword(a));
    AtParts(b, o, Dword(l) + Zeros(8), Dword(m));
    AtParts(b, o, Dword(l), Zeros(8));
    DwordIsAt(b, o, l);
    DwordIsAt(b, o + 12, m);
    DwordIsAt(b, o + 16, a);
  }

  /** Following the RVAs of each new descriptor, a loader finds ordinal 1 and a terminator in both of its
    * thunk tables, and the name with its "??" replaced. The 64-bit build makes sure that the table ends
    * within 4 GB of the module (detours/src/creatwth.cpp:310-318).
    */
  lemma LoaderFinds(p: Plan, old_: seq<byte>, b: seq<byte>, n: nat)
    requires Filled(p, old_, b, |p.names|) && n < |p.names| && 0 !in p.names[n]
    requires p.obBase + CbNew(p) <= DWORD_LIMIT
    ensures Leads(b, n, p.obBase, p.bits)
    ensures Load(b, n, p.obBase, p.bits)
         == Loaded([Ordinal1(p.bits), 0], [Ordinal1(p.bits), 0], Sized(p.names[n], p.bits.Digits()))
  {
    assert Entry(p, b, n) && |p.names[n]| < Room(p.names[n]);
    hide *;
    EntryLoads(p, b, n);
  }

  lemma EntryLoads(p: Plan, b: seq<byte>, n: nat)
    requires n < |p.names| && 0 !in p.names[n] && |p.names[n]| < Room(p.names[n])
    requires |b| == CbNew(p) && p.obBase + CbNew(p) <= DWORD_LIMIT && Entry(p, b, n)
    ensures Leads(b, n, p.obBase, p.bits)
    ensures Load(b, n, p.obBase, p.bits)
         == Loaded([Ordinal1(p.bits), 0], [Ordinal1(p.bits), 0], Sized(p.names[n], p.bits.Digits()))
  {
    hide *;
    Places(p, n);
    EntryPlaces(p, b, n);
    var l, m, t := ObThunks(p, n), ObStr(p, n), p.bits.Thunk();
    FieldsOf(p, b, n);
    RvaIs(p, l);
    RvaIs(p, m);
    RvaIs(p, l + 2 * t);
    PairIsAt(b, l, p.bits);
    PairIsAt(b, l + 2 * t, p.bits);
    NameFound(p, b, n);
    Leading(p, b, n, l, m);
  }

  lemma EntryPlaces(p: Plan, b: seq<byte>, n: nat)
    requires n < |p.names| && Entry(p, b, n)
    ensures At(b, SIZEOF_DESCRIPTOR * n, DescriptorBytes(p, n)) && At(b, ObStr(p, n), NameBytes(p, n))
    ensures At(b, ObThunks(p, n), p.bits.Pair()) && At(b, ObThunks(p, n) + 2 * p.bits.Thunk(), p.bits.Pair())
  {
    hide At, DescriptorBytes, NameBytes, ObThunks, ObStr, Bits.Thunk, Bits.Pair;
    AtParts(b, ObThunks(p, n), p.bits.Pair(), p.bits.Pair());
  }

  lemma Leading(p: Plan, b: seq<byte>, n: nat, l: nat, m: nat)
    requires SIZEOF_DESCRIPTOR * (n + 1) <= |b| && l + 4 * p.bits.Thunk() <= m < |b|
    requires DwordAt(b, SIZEOF_DESCRIPTOR * n) == p.obBase + l && DwordAt(b, SIZEOF_DESCRIPTOR * n + 12) == p.obBase + m
    requires DwordAt(b, SIZEOF_DESCRIPTOR * n + 16) == p.obBase + l + 2 * p.bits.Thunk()
    ensures Leads(b, n, p.obBase, p.bits)
    ensures Load(b, n, p.obBase, p.bits)
         == Loaded([ThunkAt(b, l, p.bits), ThunkAt(b, l + p.bits.Thunk(), p.bits)],
                   [ThunkAt(b, l + 2 * p.bits.Thunk(), p.bits), ThunkAt(b, l + 3 * p.bits.Thunk(), p.bits)], CString(b, m))
  {
    hide DwordAt, ThunkAt, CString, Bits.Thunk;
  }

  lemma RvaIs(p: Plan, ob: nat)
    requires p.obBase + ob < DWORD_LIMIT
    ensures Rva(p, ob) == p.obBase + ob
  {}

  lemma NameFound(p: Plan, b: seq<byte>, n: nat)
    requires n < |p.names| && 0 !in p.names[n] && |p.names[n]| < Room(p.names[n])
    requires At(b, ObStr(p, n), NameBytes(p, n))
    ensures CString(b, ObStr(p, n)) == Sized(p.names[n], p.bits.Digits())
  {
    var name := p.names[n];
    var s, z := Sized(name, p.bits.Digits()), Room(name) - |name|;
    AtParts(b, ObStr(p, n), s, Zeros(z));
    SizedHasNoNul(name, p.bits.Digits());
    assert b[ObStr(p, n) + |s| + 0] == Zeros(z)[0];
    CStringIs(b, ObStr(p, n), s);
  }

  lemma SamePlace(b: seq<byte>, c: seq<byte>, o: nat, s: seq<byte>, k: nat)
    requires At(b, o, s) && At(c, o, s) && o <= k < o + |s|
    ensures k < |b| && k < |c| && b[k] == c[k]
  {
    assert b[o + (k - o)] == s[k - o] && c[o + (k - o)] == s[k - o];
  }

  lemma ThunkPlace(p: Plan, k: nat) returns (n: nat)
    requires ObTab(p) <= k < ObThunks(p, |p.names|)
    ensures n < |p.names| && ObThunks(p, n) <= k < ObThunks(p, n + 1)
  {
    n := 0;
    while n < |p.names| && ObThunks(p, n + 1) <= k
      invariant n <= |p.names| && ObThunks(p, n) <= k
    {
      n := n + 1;
    }
  }

  lemma NamePlace(p: Plan, k: nat) returns (n: nat)
    requires ObStr(p, 0) <= k < CbNew(p)
    ensures n < |p.names| && ObStr(p, n) <= k < ObStr(p, n + 1)
  {
    n := 0;
    while n < |p.names| && ObStr(p, n + 1) <= k
      invariant n <= |p.names| && ObStr(p, n) <= k
    {
      n := n + 1;
    }
  }

  /** Every byte of the table has its place: the places determine it. */
  lemma TableDetermined(p: Plan, old_: seq<byte>, b: seq<byte>, c: seq<byte>)
    requires Filled(p, old_, b, |p.names|) && Filled(p, old_, c, |p.names|)
    ensures b == c
  {
    TablesFit(p);
    hide At, ObTab, ObOld, ObThunks, ObStr, CbNew, Room;
    forall k | 0 <= k < |b| ensures b[k] == c[k] {
      if k < SIZEOF_DESCRIPTOR * |p.names| {
        var n := k / SIZEOF_DESCRIPTOR;
        assert Entry(p, b, n) && Entry(p, c, n);
        SamePlace(b, c, SIZEOF_DESCRIPTOR * n, DescriptorBytes(p, n), k);
      } else if k < ObOld(p) {
        SamePlace(b, c, SIZEOF_DESCRIPTOR * |p.names|, old_, k);
      } else if ObTab(p) <= k < ObThunks(p, |p.names|) {
        var n := ThunkPlace(p, k);
        Places(p, n);
        assert Entry(p, b, n) && Entry(p, c, n);
        SamePlace(b, c, ObThunks(p, n), ThunkBytes(p), k);
      } else if ObTab(p) <= k {
        assert ObStr(p, 0) == ObThunks(p, |p.names|) by { StringsFollow(p); }
        var n := NamePlace(p, k);
        Places(p, n);
        assert Entry(p, b, n) && Entry(p, c, n);
        SamePlace(b, c, ObStr(p, n), NameBytes(p, n), k);
      }
    }
  }

  lemma StringsFollow(p: Plan)
    ensures ObStr(p, 0) == ObThunks(p, |p.names|)
  {}
}
