/** The layout of the payload store of a binary: records one after the other, each a 24-byte header
  * (size, a reserved word, a GUID) followed by its data (detours/src/detours.h:414-419).
  */
module PayloadLayout {
  type byte = x: int | 0 <= x < 256

  const SIZEOF_RECORD := 24
  const SIZEOF_GUID := 16
  const DWORD_LIMIT := 0x1_0000_0000

  datatype Record = Record(guid: seq<byte>, data: seq<byte>)

  datatype Option<T> = None | Some(value: T)

  // ------------------------------------------------------------------------ Words

  /** A little-endian DWORD. */
  function Dword(x: nat): (s: seq<byte>)
    requires x < DWORD_LIMIT
    ensures |s| == 4
  {
    [x % 0x100, x / 0x100 % 0x100, x / 0x1_0000 % 0x100, x / 0x100_0000]
  }

  function FromDword(s: seq<byte>): (x: nat)
    requires |s| == 4
    ensures x < DWORD_LIMIT
  {
    var b0: int, b1: int, b2: int, b3: int := s[0], s[1], s[2], s[3];
    b0 + 0x100 * b1 + 0x1_0000 * b2 + 0x100_0000 * b3
  }

  lemma DwordRoundTrip(x: nat)
    requires x < DWORD_LIMIT
    ensures FromDword(Dword(x)) == x
  {
    var a, b := x / 0x100, x / 0x1_0000;
    assert x == 0x100 * a + x % 0x100;
    assert b == a / 0x100 && x / 0x100_0000 == b / 0x100;
  }

  /** Align(a, 8) of the source, without wrap-around. */
  function QuadAlign(a: nat): (r: nat)
    ensures a <= r < a + 8 && r % 8 == 0
  {
    (a + 7) / 8 * 8
  }

  function Zeros(n: nat): (s: seq<byte>)
    ensures |s| == n && forall k | 0 <= k < n :: s[k] == 0
  {
    if n == 0 then [] else Zeros(n - 1) + [0]
  }

  // ---------------------------------------------------------------------- Records

  predicate Proper(r: Record) { |r.guid| == SIZEOF_GUID && SIZEOF_RECORD + |r.data| < DWORD_LIMIT }

  predicate AllProper(rs: seq<Record>) { forall r | r in rs :: Proper(r) }

  function Size(r: Record): nat { SIZEOF_RECORD + |r.data| }

  function Encode(r: Record): (s: seq<byte>)
    requires Proper(r)
    ensures |s| == Size(r)
  {
    Dword(Size(r)) + Zeros(4) + r.guid + r.data
  }

  function Layout(rs: seq<Record>): seq<byte>
    requires AllProper(rs)
  {
    if rs == [] then [] else Encode(rs[0]) + Layout(rs[1..])
  }

  /** Where record `k` begins. */
  function Offset(rs: seq<Record>, k: nat): (o: nat)
    requires k <= |rs|
  {
    if k == 0 then 0 else Size(rs[0]) + Offset(rs[1..], k - 1)
  }

  lemma {:induction false} LayoutAppend(rs: seq<Record>, qs: seq<Record>)
    requires AllProper(rs) && AllProper(qs)
    ensures AllProper(rs + qs) && Layout(rs + qs) == Layout(rs) + Layout(qs)
  {
    if rs == [] {
      assert rs + qs == qs;
    } else {
      assert (rs + qs)[1..] == rs[1..] + qs && (rs + qs)[0] == rs[0];
      LayoutAppend(rs[1..], qs);
    }
  }

  lemma {:induction false} LayoutPrefix(rs: seq<Record>, k: nat)
    requires AllProper(rs) && k <= |rs|
    ensures AllProper(rs[..k]) && |Layout(rs[..k])| == Offset(rs, k)
    decreases k
  {
    if k > 0 {
      assert rs[..k][1..] == rs[1..][..k - 1] && rs[..k][0] == rs[0];
      LayoutPrefix(rs[1..], k - 1);
    }
  }

  /** A layout is what precedes record `k`, the record, and what follows it. */
  lemma LayoutSplit(rs: seq<Record>, k: nat)
    requires AllProper(rs) && k < |rs|
    ensures AllProper(rs[..k]) && AllProper(rs[k + 1..]) && Proper(rs[k])
    ensures Layout(rs) == Layout(rs[..k]) + Encode(rs[k]) + Layout(rs[k + 1..])
    ensures |Layout(rs[..k])| == Offset(rs, k) && Offset(rs, k + 1) == Offset(rs, k) + Size(rs[k]) <= |Layout(rs)|
  {
    assert rs == rs[..k] + ([rs[k]] + rs[k + 1..]);
    LayoutAppend(rs[..k], [rs[k]] + rs[k + 1..]);
    LayoutAppend([rs[k]], rs[k + 1..]);
    assert Layout([rs[k]]) == Encode(rs[k]) + Layout([]);
    LayoutPrefix(rs, k);
    LayoutPrefix(rs, k + 1);
    assert rs[..k + 1] == rs[..k] + [rs[k]];
    LayoutAppend(rs[..k], [rs[k]]);
  }

  /** What the fields of record `k` hold. */
  lemma RecordAt(rs: seq<Record>, k: nat)
    requires AllProper(rs) && k < |rs|
    ensures Proper(rs[k])
    ensures var o, n, s := Offset(rs, k), Size(rs[k]), Layout(rs);
      && o + n == Offset(rs, k + 1) <= |s|
      && FromDword(s[o..o + 4]) == n && FromDword(s[o + 4..o + 8]) == 0
      && s[o + 8..o + SIZEOF_RECORD] == rs[k].guid && s[o + SIZEOF_RECORD..o + n] == rs[k].data
  {
    hide Layout, Encode, Offset, AllProper, FromDword;
    LayoutSplit(rs, k);
    var o, n, s := Offset(rs, k), Size(rs[k]), Layout(rs);
    assert s[o..o + n] == Encode(rs[k]);
    EncodedFields(rs[k], s, o);
  }

  /** The fields of a record that lies in some bytes. */
  lemma EncodedFields(r: Record, s: seq<byte>, o: nat)
    requires Proper(r) && o + Size(r) <= |s| && s[o..o + Size(r)] == Encode(r)
    ensures FromDword(s[o..o + 4]) == Size(r) && FromDword(s[o + 4..o + 8]) == 0
    ensures s[o + 8..o + SIZEOF_RECORD] == r.guid && s[o + SIZEOF_RECORD..o + Size(r)] == r.data
  {
    hide Dword, FromDword;
    var e, n := Encode(r), Size(r);
    Middle(s, o, o + n, 0, 4);
    Middle(s, o, o + n, 4, 8);
    Middle(s, o, o + n, 8, SIZEOF_RECORD);
    Middle(s, o, o + n, SIZEOF_RECORD, n);
    assert e[0..4] == Dword(n) && e[4..8] == Zeros(4) && e[8..SIZEOF_RECORD] == r.guid && e[SIZEOF_RECORD..n] == r.data;
    DwordRoundTrip(n);
    DwordOfZeros();
  }

  lemma Middle(s: seq<byte>, beg: nat, end: nat, i: nat, j: nat)
    requires beg <= end <= |s| && i <= j <= end - beg
    ensures s[beg..end][i..j] == s[beg + i..beg + j]
  {
    assert forall k | 0 <= k < j - i :: s[beg..end][i..j][k] == s[beg + i..beg + j][k];
  }

  lemma DwordOfZeros()
    ensures FromDword(Zeros(4)) == 0
  {}

  lemma LayoutLength(rs: seq<Record>)
    requires AllProper(rs)
    ensures |Layout(rs)| == Offset(rs, |rs|)
  {
    LayoutPrefix(rs, |rs|);
    assert rs[..|rs|] == rs;
  }

  lemma {:induction false} OffsetGrows(rs: seq<Record>, j: nat, k: nat)
    requires j <= k <= |rs|
    ensures Offset(rs, j) + SIZEOF_RECORD * (k - j) <= Offset(rs, k)
    decreases k
  {
    if j > 0 {
      OffsetGrows(rs[1..], j - 1, k - 1);
    } else if k > 0 {
      OffsetGrows(rs[1..], 0, k - 1);
    }
  }

  // ------------------------------------------------------------------- As a map

  /** The first record with a GUID, or the number of records. */
  function IndexOf(rs: seq<Record>, guid: seq<byte>): (k: nat)
    ensures k <= |rs| && (k < |rs| ==> rs[k].guid == guid) && forall j | 0 <= j < k :: rs[j].guid != guid
  {
    if rs == [] || rs[0].guid == guid then 0 else 1 + IndexOf(rs[1..], guid)
  }

  predicate Unique(rs: seq<Record>) { forall i, j | 0 <= i < j < |rs| :: rs[i].guid != rs[j].guid }

  /** The map a store stands for. */
  function Contents(rs: seq<Record>): map<seq<byte>, seq<byte>> {
    if rs == [] then map[] else Contents(rs[..|rs| - 1])[rs[|rs| - 1].guid := rs[|rs| - 1].data]
  }

  lemma {:induction false} ContentsOf(rs: seq<Record>, k: nat)
    requires Unique(rs) && k < |rs|
    ensures rs[k].guid in Contents(rs) && Contents(rs)[rs[k].guid] == rs[k].data
  {
    var n := |rs| - 1;
    if k < n {
      assert rs[..n][k] == rs[k];
      ContentsOf(rs[..n], k);
    }
  }

  lemma {:induction false} ContentsOnly(rs: seq<Record>, guid: seq<byte>)
    requires forall r | r in rs :: r.guid != guid
    ensures guid !in Contents(rs)
  {
    if rs != [] {
      ContentsOnly(rs[..|rs| - 1], guid);
    }
  }

  /** Looking a GUID up is finding its record. */
  lemma ContentsAt(rs: seq<Record>, guid: seq<byte>)
    requires Unique(rs)
    ensures guid in Contents(rs) <==> IndexOf(rs, guid) < |rs|
    ensures guid in Contents(rs) ==> Contents(rs)[guid] == rs[IndexOf(rs, guid)].data
  {
    if IndexOf(rs, guid) < |rs| {
      ContentsOf(rs, IndexOf(rs, guid));
    } else {
      ContentsOnly(rs, guid);
    }
  }

  function Without(rs: seq<Record>, k: nat): seq<Record>
    requires k < |rs|
  {
    rs[..k] + rs[k + 1..]
  }

  lemma WithoutAt(rs: seq<Record>, k: nat, guid: seq<byte>)
    requires Unique(rs) && k < |rs| && Unique(Without(rs, k))
    ensures guid in Contents(Without(rs, k)) <==> guid in Contents(rs) && guid != rs[k].guid
    ensures guid in Contents(Without(rs, k)) ==> guid in Contents(rs) && Contents(Without(rs, k))[guid] == Contents(rs)[guid]
  {
    hide Contents, Unique;
    var qs, i := Without(rs, k), IndexOf(rs, guid);
    if i == |rs| || i == k {
      ContentsAt(rs, guid);
      NotWithout(rs, k, guid);
      ContentsOnly(qs, guid);
    } else {
      var j := if i < k then i else i - 1;
      assert qs[j] == rs[i];
      OtherGuid(rs, i, k);
      ContentsOf(rs, i);
      ContentsOf(qs, j);
    }
  }

  lemma OtherGuid(rs: seq<Record>, i: nat, k: nat)
    requires Unique(rs) && i < |rs| && k < |rs| && i != k
    ensures rs[i].guid != rs[k].guid
  {}

  /** A GUID that no record but the one taken out may have is gone. */
  lemma NotWithout(rs: seq<Record>, k: nat, guid: seq<byte>)
    requires Unique(rs) && k < |rs| && (IndexOf(rs, guid) == |rs| || IndexOf(rs, guid) == k)
    ensures forall r | r in Without(rs, k) :: r.guid != guid
  {
    forall i | 0 <= i < |rs| && i != k
      ensures rs[i].guid != guid
    {
      if IndexOf(rs, guid) == k { OtherGuid(rs, i, k); }
    }
  }

  /** Taking a record out removes its binding and no other. */
  lemma WithoutRemoves(rs: seq<Record>, k: nat)
    requires Unique(rs) && k < |rs|
    ensures Unique(Without(rs, k))
    ensures Contents(Without(rs, k)) == Contents(rs) - {rs[k].guid}
  {
    hide Contents;
    var qs := Without(rs, k);
    assert forall i | 0 <= i < |qs| :: qs[i] == rs[if i < k then i else i + 1];
    forall guid
      ensures guid in Contents(qs) <==> guid in Contents(rs) && guid != rs[k].guid
      ensures guid in Contents(qs) ==> guid in Contents(rs) && Contents(qs)[guid] == Contents(rs)[guid]
    {
      WithoutAt(rs, k, guid);
    }
  }

  /** A record added at the end binds its GUID and leaves the other bindings. */
  lemma AddedBinds(rs: seq<Record>, r: Record)
    requires Unique(rs) && r.guid !in Contents(rs)
    ensures Unique(rs + [r]) && Contents(rs + [r]) == Contents(rs)[r.guid := r.data]
  {
    var qs := rs + [r];
    assert qs[..|qs| - 1] == rs;
    forall i | 0 <= i < |rs|
      ensures qs[i].guid != r.guid
    {
      ContentsOf(rs, i);
    }
  }
}
