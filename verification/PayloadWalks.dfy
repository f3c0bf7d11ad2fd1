/** The walks of `CImageData` over a store whose bytes need not be records
  * (detours/src/image.cpp:458-482, 511-539): when `Find` comes to an end, and what `IsValid` accepts.
  */
module PayloadWalks {
  import opened PayloadLayout

  /** The store is the first `cb` bytes of `s`, and what a record header at its end covers is readable. */
  predicate Readable(s: seq<byte>, cb: nat) { cb + SIZEOF_RECORD <= |s| }

  function DwordIn(s: seq<byte>, o: nat): nat
    requires o + 4 <= |s|
  {
    FromDword(s[o..o + 4])
  }

  // -------------------------------------------------------------------------- Find

  /** The loop of Find at an offset, or left. */
  datatype Walk = At(nOffset: nat) | Left

  function WalkFindStep(s: seq<byte>, cb: nat, rguid: seq<byte>, o: nat): (w: Walk)
    requires Readable(s, cb) && o < cb
    ensures w.At? ==> w.nOffset < cb
  {
    var cbBytes := DwordIn(s, o);
    if cbBytes > cb then Left
    else if cbBytes >= SIZEOF_RECORD && s[o + 8..o + SIZEOF_RECORD] == rguid then Left
    else if (o + cbBytes) % DWORD_LIMIT < cb then At((o + cbBytes) % DWORD_LIMIT)
    else Left
  }

  /** Where the loop is after `n` iterations. */
  function WalkFind(s: seq<byte>, cb: nat, rguid: seq<byte>, n: nat): (w: Walk)
    requires Readable(s, cb)
    ensures w.At? ==> w.nOffset < cb
  {
    if n == 0 then (if cb > 0 then At(0) else Left)
    else
      match WalkFind(s, cb, rguid, n - 1)
      case Left => Left
      case At(o) => WalkFindStep(s, cb, rguid, o)
  }

  predicate Ends(s: seq<byte>, cb: nat, rguid: seq<byte>, n: nat)
    requires Readable(s, cb)
  {
    WalkFind(s, cb, rguid, n).Left?
  }

  predicate MeetsZero(s: seq<byte>, cb: nat, rguid: seq<byte>, n: nat)
    requires Readable(s, cb)
  {
    var w := WalkFind(s, cb, rguid, n);
    w.At? && DwordIn(s, w.nOffset) == 0
  }

  lemma {:induction false} LeftStays(s: seq<byte>, cb: nat, rguid: seq<byte>, n: nat, m: nat)
    requires Readable(s, cb) && n <= m && WalkFind(s, cb, rguid, n).Left?
    ensures WalkFind(s, cb, rguid, m).Left?
    decreases m
  {
    if n < m { LeftStays(s, cb, rguid, n, m - 1); }
  }

  lemma {:induction false} ZeroStays(s: seq<byte>, cb: nat, rguid: seq<byte>, n: nat, m: nat)
    requires Readable(s, cb) && cb < DWORD_LIMIT && n <= m && MeetsZero(s, cb, rguid, n)
    ensures WalkFind(s, cb, rguid, m) == WalkFind(s, cb, rguid, n)
    decreases m
  {
    if n < m {
      ZeroStays(s, cb, rguid, n, m - 1);
      ZeroStep(s, cb, rguid, WalkFind(s, cb, rguid, n).nOffset);
      hide WalkFindStep, DwordIn;
    }
  }

  lemma ZeroStep(s: seq<byte>, cb: nat, rguid: seq<byte>, o: nat)
    requires Readable(s, cb) && cb < DWORD_LIMIT && o < cb && DwordIn(s, o) == 0
    ensures WalkFindStep(s, cb, rguid, o) == At(o)
  {
    hide DwordIn;
  }

  lemma {:induction false} Advances(s: seq<byte>, cb: nat, rguid: seq<byte>, n: nat)
    requires Readable(s, cb) && 2 * cb <= DWORD_LIMIT && forall k :: !MeetsZero(s, cb, rguid, k)
    ensures WalkFind(s, cb, rguid, n).At? ==> n <= WalkFind(s, cb, rguid, n).nOffset
  {
    if n > 0 {
      Advances(s, cb, rguid, n - 1);
      assert !MeetsZero(s, cb, rguid, n - 1);
      if WalkFind(s, cb, rguid, n - 1).At? { GoesOn(s, cb, rguid, WalkFind(s, cb, rguid, n - 1).nOffset); }
      hide WalkFindStep, DwordIn;
    }
  }

  lemma GoesOn(s: seq<byte>, cb: nat, rguid: seq<byte>, o: nat)
    requires Readable(s, cb) && 2 * cb <= DWORD_LIMIT && o < cb && DwordIn(s, o) != 0
    ensures WalkFindStep(s, cb, rguid, o).At? ==> o < WalkFindStep(s, cb, rguid, o).nOffset
  {
    hide DwordIn;
  }

  /** Find comes to an end exactly if it meets no record of size 0 on its way, in a store of at most
    * 2 GB; the records may be anything.
    */
  lemma FindEnds(s: seq<byte>, cb: nat, rguid: seq<byte>)
    requires Readable(s, cb) && 2 * cb <= DWORD_LIMIT
    ensures (exists n :: Ends(s, cb, rguid, n)) <==> forall n :: !MeetsZero(s, cb, rguid, n)
  {
    if forall n :: !MeetsZero(s, cb, rguid, n) {
      Advances(s, cb, rguid, cb);
      assert Ends(s, cb, rguid, cb);
    } else {
      var n: nat :| MeetsZero(s, cb, rguid, n);
      forall m: nat
        ensures !Ends(s, cb, rguid, m)
      {
        if Ends(s, cb, rguid, m) {
          LeftStays(s, cb, rguid, m, n + m);
          ZeroStays(s, cb, rguid, n, n + m);
        }
      }
    }
  }

  // ----------------------------------------------------------------------- IsValid

  /** IsValid from an offset on; the headers have a size of 24 or more. */
  predicate WalkValid(s: seq<byte>, cb: nat, o: nat)
    requires Readable(s, cb)
    decreases cb - o
  {
    o >= cb || (DwordIn(s, o) >= SIZEOF_RECORD && DwordIn(s, o + 4) == 0 && WalkValid(s, cb, o + DwordIn(s, o)))
  }

  /** Where the walk of IsValid ends. */
  function WalkEnd(s: seq<byte>, cb: nat, o: nat): nat
    requires Readable(s, cb) && WalkValid(s, cb, o)
    decreases cb - o
  {
    if o >= cb then o else WalkEnd(s, cb, o + DwordIn(s, o))
  }

  /** The bytes from an offset on are records. */
  ghost predicate AreRecords(s: seq<byte>, cb: nat, o: nat)
    requires Readable(s, cb)
  {
    o <= cb && exists rs: seq<Record> | AllProper(rs) :: Layout(rs) == s[o..cb]
  }

  lemma {:induction false} RecordsAreValid(s: seq<byte>, cb: nat, o: nat, rs: seq<Record>)
    requires Readable(s, cb) && o <= cb && AllProper(rs) && Layout(rs) == s[o..cb]
    ensures WalkValid(s, cb, o) && WalkEnd(s, cb, o) == cb
    decreases |rs|
  {
    hide FromDword, Encode, AllProper;
    if rs != [] {
      HeadProper(rs);
      HeadRead(s, cb, o, rs[0], Layout(rs[1..]));
      RecordsAreValid(s, cb, o + Size(rs[0]), rs[1..]);
    }
  }

  lemma HeadProper(rs: seq<Record>)
    requires AllProper(rs) && rs != []
    ensures Proper(rs[0]) && AllProper(rs[1..]) && Layout(rs) == Encode(rs[0]) + Layout(rs[1..])
  {
    assert rs[0] in rs;
  }

  lemma HeadRead(s: seq<byte>, cb: nat, o: nat, r: Record, rest: seq<byte>)
    requires Readable(s, cb) && o <= cb && Proper(r) && s[o..cb] == Encode(r) + rest
    ensures o + Size(r) <= cb && DwordIn(s, o) == Size(r) && DwordIn(s, o + 4) == 0 && s[o + Size(r)..cb] == rest
  {
    hide Dword, FromDword;
    var t := s[o..cb];
    DwordRoundTrip(Size(r));
    assert |t| == Size(r) + |rest|;
    Middle(s, o, cb, 0, 4);
    Middle(s, o, cb, 4, 8);
    assert t[0..4] == Dword(Size(r));
    assert t[4..8] == Encode(r)[4..8] == Zeros(4);
    assert s[o + Size(r)..cb] == t[Size(r)..];
    DwordOfZeros();
  }

  lemma ZeroDword(s: seq<byte>)
    requires |s| == 4
    ensures FromDword(s) == 0 ==> s == Zeros(4)
  {
    var b0: int, b1: int, b2: int, b3: int := s[0], s[1], s[2], s[3];
    if FromDword(s) == 0 {
      assert b0 == 0 && b1 == 0 && b2 == 0 && b3 == 0;
    }
  }

  lemma DwordOf(s: seq<byte>)
    requires |s| == 4
    ensures Dword(FromDword(s)) == s
  {
    var b0: int, b1: int, b2: int, b3: int := s[0], s[1], s[2], s[3];
    var x := FromDword(s);
    assert x / 0x100 == b1 + 0x100 * b2 + 0x1_0000 * b3;
    assert x / 0x1_0000 == b2 + 0x100 * b3;
    assert x / 0x100_0000 == b3;
  }

  lemma {:induction false} ValidAreRecords(s: seq<byte>, cb: nat, o: nat) returns (rs: seq<Record>)
    requires Readable(s, cb) && WalkValid(s, cb, o) && WalkEnd(s, cb, o) == cb
    ensures o <= cb && AllProper(rs) && Layout(rs) == s[o..cb]
    decreases cb - o
  {
    LastBehind(s, cb, o);
    if o >= cb {
      rs := [];
    } else {
      var rest := ValidAreRecords(s, cb, o + DwordIn(s, o));
      var r := HeadRecord(s, cb, o);
      rs := [r] + rest;
      assert rs[1..] == rest;
      hide Encode, DwordIn, FromDword;
      assert s[o..cb] == s[o..o + DwordIn(s, o)] + s[o + DwordIn(s, o)..cb];
    }
  }

  lemma {:induction false} LastBehind(s: seq<byte>, cb: nat, o: nat)
    requires Readable(s, cb) && WalkValid(s, cb, o)
    ensures o <= WalkEnd(s, cb, o) && (o < cb ==> o + DwordIn(s, o) <= WalkEnd(s, cb, o))
    decreases cb - o
  {
    if o < cb { LastBehind(s, cb, o + DwordIn(s, o)); }
  }

  lemma HeadRecord(s: seq<byte>, cb: nat, o: nat) returns (r: Record)
    requires Readable(s, cb) && o <= cb && SIZEOF_RECORD <= DwordIn(s, o) && o + DwordIn(s, o) <= cb && DwordIn(s, o + 4) == 0
    ensures Proper(r) && Encode(r) == s[o..o + DwordIn(s, o)]
  {
    hide Dword, FromDword;
    var n := DwordIn(s, o);
    r := Record(s[o + 8..o + SIZEOF_RECORD], s[o + SIZEOF_RECORD..o + n]);
    ZeroDword(s[o + 4..o + 8]);
    DwordOf(s[o..o + 4]);
    assert Dword(Size(r)) == s[o..o + 4];
    assert s[o..o + n] == s[o..o + 4] + s[o + 4..o + 8] + s[o + 8..o + SIZEOF_RECORD] + s[o + SIZEOF_RECORD..o + n];
  }

  /** What IsValid leaves open: a store is records exactly if it is accepted and its last record ends at
    * the end of the store.
    */
  lemma ValidExactly(s: seq<byte>, cb: nat)
    requires Readable(s, cb)
    ensures AreRecords(s, cb, 0) <==> WalkValid(s, cb, 0) && WalkEnd(s, cb, 0) == cb
  {
    if AreRecords(s, cb, 0) {
      var rs: seq<Record> :| AllProper(rs) && Layout(rs) == s[0..cb];
      RecordsAreValid(s, cb, 0, rs);
    } else if WalkValid(s, cb, 0) && WalkEnd(s, cb, 0) == cb {
      var rs := ValidAreRecords(s, cb, 0);
    }
  }

  /** A single header that claims more than there is is accepted. */
  lemma OverrunAccepted(n: nat, guid: seq<byte>, behind: seq<byte>)
    requires SIZEOF_RECORD < n < DWORD_LIMIT && |guid| == SIZEOF_GUID && |behind| >= SIZEOF_RECORD
    ensures var s := Dword(n) + Zeros(4) + guid + behind; WalkValid(s, SIZEOF_RECORD, 0) && !AreRecords(s, SIZEOF_RECORD, 0)
  {
    var s := Dword(n) + Zeros(4) + guid + behind;
    assert s[0..4] == Dword(n) && s[4..8] == Zeros(4);
    DwordRoundTrip(n);
    assert DwordIn(s, 4) == 0;
    ValidExactly(s, SIZEOF_RECORD);
  }
}
