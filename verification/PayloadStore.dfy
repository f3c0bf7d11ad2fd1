/** `CImageData`, the payload store of a binary being edited (detours/src/image.cpp:413-612), and the
  * walk over the payloads of a loaded module (detours/src/modules.cpp:802-817).
  */
module PayloadStore {
  import opened PayloadLayout

  /** MoveMemory: the ranges may overlap. */
  method MoveMemory(a: array<byte>, dst: nat, src: nat, cb: nat)
    requires dst + cb <= a.Length && src + cb <= a.Length
    modifies a
    ensures a[dst..dst + cb] == old(a[src..src + cb])
    ensures forall i | 0 <= i < a.Length && !(dst <= i < dst + cb) :: a[i] == old(a[i])
  {
    forall i | 0 <= i < cb {
      a[dst + i] := a[src + i];
    }
  }

  lemma Inner(s: seq<byte>, n: nat, i: nat, j: nat)
    requires i <= j <= n <= |s|
    ensures s[..n][i..j] == s[i..j]
  {}

  class CImageData {
    var m_pbData: array?<byte>
    var m_cbData: nat
    var m_cbAlloc: nat
    ghost var records: seq<Record>

    ghost function Repr(): set<object>
      reads this
    {
      if m_pbData == null then {this} else {this, m_pbData}
    }

    /** The bytes in use are the layout of the records; the buffer is the store's own when m_cbAlloc
      * is not 0, and otherwise a part of the mapped file.
      */
    ghost predicate Valid()
      reads this, m_pbData
    {
      && AllProper(records) && Unique(records) && m_cbData < DWORD_LIMIT
      && (m_pbData == null ==> m_cbData == 0 && m_cbAlloc == 0 && records == [])
      && (m_pbData != null ==>
          && m_cbData <= m_pbData.Length && (m_cbAlloc != 0 ==> m_cbAlloc == m_pbData.Length)
          && m_pbData[..m_cbData] == Layout(records))
    }

    constructor (pbData: array?<byte>, cbData: nat, ghost rs: seq<Record>)
      requires AllProper(rs) && Unique(rs) && cbData < DWORD_LIMIT
      requires if pbData == null then cbData == 0 && rs == [] else cbData <= pbData.Length && pbData[..cbData] == Layout(rs)
      ensures Valid() && records == rs && m_pbData == pbData && m_cbAlloc == 0
    {
      m_pbData, m_cbData, m_cbAlloc := pbData, cbData, 0;
      records := rs;
    }

    /** A DWORD of the buffer. */
    function DwordAt(o: nat): nat
      reads this, m_pbData
      requires m_pbData != null && o + 4 <= m_pbData.Length
    {
      FromDword(m_pbData[o..o + 4])
    }

    lemma RecordInBuffer(k: nat)
      requires Valid() && k < |records|
      ensures m_pbData != null && Offset(records, k + 1) == Offset(records, k) + Size(records[k]) <= m_cbData <= m_pbData.Length
      ensures DwordAt(Offset(records, k)) == Size(records[k]) && DwordAt(Offset(records, k) + 4) == 0
      ensures m_pbData[Offset(records, k) + 8..Offset(records, k) + SIZEOF_RECORD] == records[k].guid
      ensures m_pbData[Offset(records, k) + SIZEOF_RECORD..Offset(records, k + 1)] == records[k].data
    {
      RecordAt(records, k);
      var o, s := Offset(records, k), Layout(records);
      Inner(m_pbData[..], m_cbData, o, o + 4);
      Inner(m_pbData[..], m_cbData, o + 4, o + 8);
      Inner(m_pbData[..], m_cbData, o + 8, o + SIZEOF_RECORD);
      Inner(m_pbData[..], m_cbData, o + SIZEOF_RECORD, Offset(records, k + 1));
    }

    lemma EndOffset()
      requires Valid()
      ensures Offset(records, |records|) == m_cbData
    {
      LayoutLength(records);
    }

    method IsValid() returns (valid: bool)
      requires Valid()
      ensures valid
    {
      if m_pbData == null {
        return true;
      }
      EndOffset();
      var pbIter := 0;
      ghost var k := 0;
      while pbIter < m_cbData
        invariant k <= |records| && pbIter == Offset(records, k)
        decreases |records| - k
      {
        RecordInBuffer(k);
        if DwordAt(pbIter) < SIZEOF_RECORD || DwordAt(pbIter + 4) != 0 {
          return false;
        }
        pbIter := pbIter + DwordAt(pbIter);
        k := k + 1;
      }
      return true;
    }

    /** Find: where the data of the GUID's record begins and how long it is. */
    method Find(rguid: seq<byte>) returns (found: bool, pb: nat, cbData: nat)
      requires Valid()
      ensures found <==> rguid in Contents(records)
      ensures found ==> var k := IndexOf(records, rguid);
        && k < |records| && m_pbData != null
        && pb == Offset(records, k) + SIZEOF_RECORD && pb + cbData == Offset(records, k + 1) <= m_cbData <= m_pbData.Length
        && m_pbData[pb..pb + cbData] == Contents(records)[rguid] && records[k].guid == rguid
      ensures !found ==> cbData == 0
    {
      hide Contents, Layout, Unique, AllProper, FromDword;
      EndOffset();
      var nOffset := 0;
      ghost var k := 0;
      while nOffset < m_cbData
        invariant k <= |records| && nOffset == Offset(records, k)
        invariant forall j | 0 <= j < k :: records[j].guid != rguid
        decreases |records| - k
      {
        RecordInBuffer(k);
        var cbBytes := DwordAt(nOffset);
        assert SIZEOF_RECORD <= cbBytes <= m_cbData;
        if cbBytes > m_cbData {
          break;
        }
        if SIZEOF_RECORD <= cbBytes && m_pbData[nOffset + 8..nOffset + SIZEOF_RECORD] == rguid {
          FirstFound(rguid, k);
          return true, nOffset + SIZEOF_RECORD, cbBytes - SIZEOF_RECORD;
        }
        nOffset := nOffset + cbBytes;
        k := k + 1;
      }
      OffsetGrows(records, k, |records|);
      ContentsAt(records, rguid);
      return false, 0, 0;
    }

    /** The first record with a GUID is the one that counts. */
    lemma FirstFound(rguid: seq<byte>, k: nat)
      requires Valid() && k < |records| && records[k].guid == rguid && forall j | 0 <= j < k :: records[j].guid != rguid
      ensures IndexOf(records, rguid) == k && rguid in Contents(records) && Contents(records)[rguid] == records[k].data
    {
      ContentsAt(records, rguid);
    }

    /** Enumerate, from the iterator of record `k`. */
    method Enumerate(nIterator: nat, ghost k: nat) returns (more: bool, guid: seq<byte>, pb: nat, cbData: nat, nNext: nat)
      requires Valid() && k <= |records| && nIterator == Offset(records, k)
      ensures more <==> k < |records|
      ensures more ==>
        && m_pbData != null && guid == records[k].guid && pb + cbData == Offset(records, k + 1) <= m_cbData <= m_pbData.Length
        && m_pbData[pb..pb + cbData] == records[k].data && nNext == Offset(records, k + 1)
      ensures !more ==> cbData == 0 && guid == Zeros(SIZEOF_GUID) && nNext == nIterator
    {
      EndOffset();
      OffsetGrows(records, k, |records|);
      if m_cbData < nIterator + SIZEOF_RECORD {
        return false, Zeros(SIZEOF_GUID), 0, 0, nIterator;
      }
      RecordInBuffer(k);
      return true, m_pbData[nIterator + 8..nIterator + SIZEOF_RECORD], nIterator + SIZEOF_RECORD,
             DwordAt(nIterator) - SIZEOF_RECORD, nIterator + DwordAt(nIterator);
    }

    /** Enumerating from 0 yields the whole store, each record once, in order, and ends. */
    method EnumerateAll() returns (all: seq<Record>)
      requires Valid()
      ensures all == records
    {
      all := [];
      var nIterator := 0;
      var more := true;
      while more
        invariant |all| <= |records| && all == records[..|all|] && nIterator == Offset(records, |all|)
        invariant !more ==> |all| == |records|
        decreases |records| - |all|, more
      {
        var guid, pb, cbData, nNext;
        more, guid, pb, cbData, nNext := Enumerate(nIterator, |all|);
        if more {
          assert records[..|all| + 1] == records[..|all|] + [records[|all|]];
          all := all + [Record(guid, m_pbData[pb..pb + cbData])];
          nIterator := nNext;
        }
      }
    }
  
    /** SizeTo: room for `cbData` bytes in a buffer of the store's own. */
    method SizeTo(cbData: nat, noMemory: bool) returns (ok: bool)
      requires Valid() && m_cbData <= cbData < DWORD_LIMIT
      modifies this`m_pbData, this`m_cbAlloc
      ensures Valid()
      ensures ok ==> cbData <= m_cbAlloc && (m_pbData == old(m_pbData) || fresh(m_pbData))
      ensures ok && cbData > 0 ==> m_pbData != null && m_pbData.Length == m_cbAlloc
      ensures !ok ==> noMemory && m_pbData == old(m_pbData) && m_cbAlloc == old(m_cbAlloc)
    {
      if cbData <= m_cbAlloc {
        return true;
      }
      if noMemory {
        return false;
      }
      var pbNew := new byte[cbData];
      if m_pbData != null {
        forall i | 0 <= i < m_cbData {
          pbNew[i] := m_pbData[i];
        }
        assert pbNew[..m_cbData] == m_pbData[..m_cbData];
      } else {
        assert pbNew[..m_cbData] == [];
      }
      m_pbData := pbNew;
      m_cbAlloc := cbData;
      return true;
    }

    method Purge()
      requires Valid()
      modifies this`m_cbData, this`records
      ensures Valid() && records == []
    {
      m_cbData := 0;
      records := [];
      if m_pbData != null {
        assert m_pbData[..0] == Layout([]);
      }
    }

    /** Delete moves what follows the record over it. */
    method Delete(rguid: seq<byte>) returns (deleted: bool)
      requires Valid()
      modifies this`m_cbData, this`records, m_pbData
      ensures Valid() && m_pbData == old(m_pbData)
      ensures deleted <==> rguid in Contents(old(records))
      ensures Contents(records) == Contents(old(records)) - {rguid}
      ensures deleted ==> var k := IndexOf(old(records), rguid); k < |old(records)| && records == Without(old(records), k)
      ensures !deleted ==> records == old(records)
      ensures m_cbData <= old(m_cbData)
    {
      hide Contents, Layout, Unique, AllProper, Offset;
      var found, pbFound, cbFound := Find(rguid);
      if !found {
        return false;
      }
      ghost var rs, k := records, IndexOf(records, rguid);
      DroppedLayout(rs, k);
      WithoutRemoves(rs, k);
      CutOut(pbFound - SIZEOF_RECORD, cbFound + SIZEOF_RECORD);
      records := Without(rs, k);
      return true;
    }

    /** The bytes after a range moved over it. */
    method CutOut(pbFound: nat, cbFound: nat)
      requires m_pbData != null && pbFound + cbFound <= m_cbData <= m_pbData.Length
      modifies this`m_cbData, m_pbData
      ensures m_cbData == old(m_cbData) - cbFound
      ensures m_pbData[..m_cbData] == old(m_pbData[..m_cbData])[..pbFound] + old(m_pbData[..m_cbData])[pbFound + cbFound..]
    {
      ghost var s := m_pbData[..m_cbData];
      var pbRestData := pbFound + cbFound;
      var cbRestData := m_cbData - pbRestData;
      if cbRestData != 0 {
        MoveMemory(m_pbData, pbFound, pbRestData, cbRestData);
      }
      m_cbData := m_cbData - cbFound;
      assert m_pbData[..pbFound] == s[..pbFound];
      assert m_pbData[..m_cbData] == s[..pbFound] + s[pbRestData..];
    }

    /** Set: the old record of the GUID goes, the new one comes last, its data padded with zeros to
      * a multiple of 8. `pbData` of None stands for a NULL pointer with the size `cbNull`.
      */
    method Set(rguid: seq<byte>, pbData: Option<seq<byte>>, cbNull: nat, noMemory: bool) returns (ok: bool, pbDest: nat)
      requires Valid() && |rguid| == SIZEOF_GUID
      requires m_cbData + DataOf(pbData, cbNull) + SIZEOF_RECORD + 8 < DWORD_LIMIT
      modifies this, m_pbData
      ensures Valid()
      ensures ok ==>
        && Contents(records) == Contents(old(records))[rguid := Padded(pbData, cbNull)]
        && m_pbData != null && pbDest + |Padded(pbData, cbNull)| == m_cbData <= m_pbData.Length
        && m_pbData[pbDest..m_cbData] == Padded(pbData, cbNull)
      ensures !ok ==> noMemory && Contents(records) == Contents(old(records)) - {rguid}
    {
      hide Contents, Layout, Unique;
      var deleted := Delete(rguid);
      var cbData := match pbData case Some(s) => |s| case None => cbNull;
      var cbAlloc := QuadAlign(cbData);
      ok := SizeTo(m_cbData + cbAlloc + SIZEOF_RECORD, noMemory);
      if !ok {
        return false, 0;
      }
      pbDest := m_cbData + SIZEOF_RECORD;
      Append(Record(rguid, Padded(pbData, cbNull)));
    }

    /** The record written after the others. */
    method Append(r: Record)
      requires Valid() && Proper(r) && r.guid !in Contents(records)
      requires m_pbData != null && m_cbData + Size(r) <= m_pbData.Length && m_cbData + Size(r) < DWORD_LIMIT
      modifies this`m_cbData, this`records, m_pbData
      ensures Valid() && m_pbData == old(m_pbData) && m_cbData == old(m_cbData) + Size(r)
      ensures records == old(records) + [r]
      ensures Contents(records) == Contents(old(records))[r.guid := r.data]
      ensures m_pbData[m_cbData - |r.data|..m_cbData] == r.data
    {
      hide Contents, Layout, Unique, AllProper, Dword;
      ghost var rs, s := records, m_pbData[..m_cbData];
      var a, o := m_pbData, m_cbData;
      var header := Dword(Size(r)) + Zeros(4) + r.guid;
      forall i | 0 <= i < Size(r) {
        a[o + i] := if i < SIZEOF_RECORD then header[i] else r.data[i - SIZEOF_RECORD];
      }
      m_cbData := m_cbData + Size(r);
      AddedBinds(rs, r);
      AddedLayout(rs, r);
      records := rs + [r];
      assert a[o..m_cbData] == header + r.data == Encode(r);
      assert a[..m_cbData] == s + Encode(r);
      assert a[m_cbData - |r.data|..m_cbData] == r.data;
    }
  }

  function DataOf(pbData: Option<seq<byte>>, cbNull: nat): nat { match pbData case Some(s) => |s| case None => cbNull }

  /** The data a record gets: followed by zeros up to a multiple of 8, or all zeros. */
  function Padded(pbData: Option<seq<byte>>, cbNull: nat): (s: seq<byte>)
    ensures |s| == QuadAlign(DataOf(pbData, cbNull))
    ensures forall k | 0 <= k < |s| :: s[k] == if pbData.Some? && k < |pbData.value| then pbData.value[k] else 0
  {
    match pbData
    case Some(d) => d + Zeros(QuadAlign(|d|) - |d|)
    case None => Zeros(QuadAlign(cbNull))
  }

  lemma DroppedLayout(rs: seq<Record>, k: nat)
    requires AllProper(rs) && k < |rs|
    ensures AllProper(Without(rs, k)) && Offset(rs, k) <= Offset(rs, k + 1) <= |Layout(rs)|
    ensures Layout(Without(rs, k)) == Layout(rs)[..Offset(rs, k)] + Layout(rs)[Offset(rs, k + 1)..]
  {
    LayoutSplit(rs, k);
    LayoutAppend(rs[..k], rs[k + 1..]);
  }

  lemma AddedLayout(rs: seq<Record>, r: Record)
    requires AllProper(rs) && Proper(r)
    ensures AllProper(rs + [r]) && Layout(rs + [r]) == Layout(rs) + Encode(r)
  {
    LayoutAppend(rs, [r]);
    assert Layout([r]) == Encode(r) + Layout([]);
  }

  /** DetourFindPayload in a loaded module's section, once its header has been checked: the walk from
    * nDataOffset to cbDataSize finds what CImageData::Find finds.
    */
  method FindPayload(section: seq<byte>, nDataOffset: nat, cbDataSize: nat, rguid: seq<byte>, ghost rs: seq<Record>)
    returns (found: bool, pb: nat, cbData: nat)
    requires AllProper(rs) && Unique(rs)
    requires nDataOffset <= cbDataSize <= |section| && section[nDataOffset..cbDataSize] == Layout(rs)
    ensures found <==> rguid in Contents(rs)
    ensures found ==> nDataOffset <= pb && pb + cbData <= cbDataSize && section[pb..pb + cbData] == Contents(rs)[rguid]
    ensures !found ==> cbData == 0
  {
    hide Contents, Layout, Unique, AllProper;
    LayoutLength(rs);
    ContentsAt(rs, rguid);
    var pbData := nDataOffset;
    ghost var k := 0;
    while pbData < cbDataSize
      invariant k <= |rs| && pbData == nDataOffset + Offset(rs, k)
      invariant forall j | 0 <= j < k :: rs[j].guid != rguid
      decreases |rs| - k
    {
      SectionRecord(section, nDataOffset, cbDataSize, rs, k);
      var cbBytes := FromDword(section[pbData..pbData + 4]);
      if section[pbData + 8..pbData + SIZEOF_RECORD] == rguid {
        return true, pbData + SIZEOF_RECORD, cbBytes - SIZEOF_RECORD;
      }
      pbData := pbData + cbBytes;
      k := k + 1;
    }
    OffsetGrows(rs, k, |rs|);
    return false, 0, 0;
  }

  lemma SectionRecord(section: seq<byte>, beg: nat, end: nat, rs: seq<Record>, k: nat)
    requires AllProper(rs) && k < |rs| && beg <= end <= |section| && section[beg..end] == Layout(rs)
    ensures var o, n := beg + Offset(rs, k), Size(rs[k]);
      && o + n == beg + Offset(rs, k + 1) <= end && SIZEOF_RECORD <= n
      && FromDword(section[o..o + 4]) == n && section[o + 8..o + SIZEOF_RECORD] == rs[k].guid
      && section[o + SIZEOF_RECORD..o + n] == rs[k].data
  {
    RecordAt(rs, k);
    var o, n, s := Offset(rs, k), Size(rs[k]), section[beg..end];
    Middle(section, beg, end, o, o + 4);
    Middle(section, beg, end, o + 8, o + SIZEOF_RECORD);
    Middle(section, beg, end, o + SIZEOF_RECORD, o + n);
  }
}
