/** Write puts a .detour section behind the others and Read takes it away again
  * (detours/src/image.cpp:1085-1118, 1263-1320, 1666-1921); DETOUR_SECTION_HEADER is
  * detours/src/detours.h:388-412.
  */
module ImageSection {
  import opened PayloadLayout
  import opened ImageOutput

  const DETOUR_SECTION_HEADER_SIGNATURE := 0x0072_7444
  const MAX_SECTIONS := 16

  datatype Directory = Directory(VirtualAddress: nat, Size: nat)

  datatype SectionHeader = SectionHeader(Name: string, VirtualSize: nat, VirtualAddress: nat, SizeOfRawData: nat, PointerToRawData: nat)

  /** The fields of the headers that Write and Read change. */
  datatype Headers = Headers(
    sections: seq<SectionHeader>, imports: Directory, boundImports: Directory, iat: Directory, SizeOfImage: nat)

  /** DETOUR_SECTION_HEADER, without its reserved words. */
  datatype DetourHeader = DetourHeader(
    cbHeaderSize: nat, nSignature: nat, nDataOffset: nat, cbDataSize: nat,
    originalImports: Directory, originalBound: Directory, originalIat: Directory,
    nOriginalSizeOfImage: nat, cbPrePE: nat, nOriginalClrFlags: nat)

  // ------------------------------------------------------------- The header's bytes

  predicate Fit(xs: seq<nat>) { forall k | 0 <= k < |xs| :: xs[k] < DWORD_LIMIT }

  function Dwords(xs: seq<nat>): (s: seq<byte>)
    requires Fit(xs)
    ensures |s| == 4 * |xs|
  {
    if xs == [] then [] else Dword(xs[0]) + Dwords(xs[1..])
  }

  function DwordAt(s: seq<byte>, o: nat): nat
    requires o + 4 <= |s|
  {
    FromDword(s[o..o + 4])
  }

  lemma {:induction false} DwordsAt(xs: seq<nat>, k: nat)
    requires Fit(xs) && k < |xs|
    ensures DwordAt(Dwords(xs), 4 * k) == xs[k]
  {
    var s := Dwords(xs);
    if k == 0 {
      DwordRoundTrip(xs[0]);
      assert s[0..4] == Dword(xs[0]);
    } else {
      DwordsAt(xs[1..], k - 1);
      assert s[4 * k..4 * k + 4] == Dwords(xs[1..])[4 * (k - 1)..4 * (k - 1) + 4];
    }
  }

  function Words(h: DetourHeader): (xs: seq<nat>)
    ensures |xs| == 16
  {
    [h.cbHeaderSize, h.nSignature, h.nDataOffset, h.cbDataSize,
     h.originalImports.VirtualAddress, h.originalImports.Size, h.originalBound.VirtualAddress, h.originalBound.Size,
     h.originalIat.VirtualAddress, h.originalIat.Size, h.nOriginalSizeOfImage, h.cbPrePE,
     h.nOriginalClrFlags, 0, 0, 0]
  }

  predicate Small(h: DetourHeader) { Fit(Words(h)) }

  function EncodeHeader(h: DetourHeader): (s: seq<byte>)
    requires Small(h)
    ensures |s| == SIZEOF_HEADER
  {
    Dwords(Words(h))
  }

  /** CopyMemory(&dh, ..., sizeof(dh)). */
  function DecodeHeader(s: seq<byte>): DetourHeader
    requires |s| >= SIZEOF_HEADER
  {
    DetourHeader(DwordAt(s, 0), DwordAt(s, 4), DwordAt(s, 8), DwordAt(s, 12),
                 Directory(DwordAt(s, 16), DwordAt(s, 20)), Directory(DwordAt(s, 24), DwordAt(s, 28)),
                 Directory(DwordAt(s, 32), DwordAt(s, 36)), DwordAt(s, 40), DwordAt(s, 44), DwordAt(s, 48))
  }

  lemma HeaderRoundTrip(h: DetourHeader)
    requires Small(h)
    ensures DecodeHeader(EncodeHeader(h)) == h
  {
    hide Dwords, DwordAt;
    forall k | 0 <= k < 16
      ensures DwordAt(EncodeHeader(h), 4 * k) == Words(h)[k]
    {
      DwordsAt(Words(h), k);
    }
    assert DwordAt(EncodeHeader(h), 4 * 0) == h.cbHeaderSize && DwordAt(EncodeHeader(h), 4 * 1) == h.nSignature;
    assert DwordAt(EncodeHeader(h), 4 * 2) == h.nDataOffset && DwordAt(EncodeHeader(h), 4 * 3) == h.cbDataSize;
    assert DwordAt(EncodeHeader(h), 4 * 4) == h.originalImports.VirtualAddress && DwordAt(EncodeHeader(h), 4 * 5) == h.originalImports.Size;
    assert DwordAt(EncodeHeader(h), 4 * 6) == h.originalBound.VirtualAddress && DwordAt(EncodeHeader(h), 4 * 7) == h.originalBound.Size;
    assert DwordAt(EncodeHeader(h), 4 * 8) == h.originalIat.VirtualAddress && DwordAt(EncodeHeader(h), 4 * 9) == h.originalIat.Size;
    assert DwordAt(EncodeHeader(h), 4 * 10) == h.nOriginalSizeOfImage && DwordAt(EncodeHeader(h), 4 * 11) == h.cbPrePE;
    assert DwordAt(EncodeHeader(h), 4 * 12) == h.nOriginalClrFlags;
  }

  // ----------------------------------------------------------- Building the section

  /** Where the parts of the section begin, in its own bytes. */
  datatype Parts = Parts(prePE: nat, lookup: nat, bound: nat, names: nat, data: nat, imports: nat)

  /** What goes into the section besides its header. */
  datatype Contents = Contents(prePE: seq<byte>, lookup: seq<byte>, bound: seq<byte>, names: seq<byte>, data: seq<byte>, imports: seq<byte>)

  /** The sum that Write asks SizeOutputBuffer for. */
  function Requested(c: Contents): nat {
    QuadAlign(SIZEOF_HEADER) + |c.prePE| + QuadAlign(|c.data|) + QuadAlign(|c.lookup|) + QuadAlign(|c.bound|)
    + QuadAlign(|c.names|) + QuadAlign(|c.imports|)
  }

  /** The section holds a part. */
  predicate Holds(raw: seq<byte>, o: nat, bytes: seq<byte>) { o + |bytes| <= |raw| && raw[o..o + |bytes|] == bytes }

  /** The parts follow each other without overlapping. */
  predicate InOrder(p: Parts, c: Contents, end: nat) {
    && p.prePE == SIZEOF_HEADER && p.lookup == p.prePE + QuadAlign(|c.prePE|) && p.bound == p.lookup + QuadAlign(|c.lookup|)
    && p.names == p.bound + QuadAlign(|c.bound|) && p.data == p.names + QuadAlign(|c.names|)
    && p.imports == p.data + QuadAlign(|c.data|) && end == p.imports + QuadAlign(|c.imports|)
  }

  /** The bytes of a complete section. */
  predicate IsSection(raw: seq<byte>, h: DetourHeader, p: Parts, c: Contents) {
    && Small(h) && HoldsData(raw, h, p, c) && HoldsTables(raw, p, c)
    && h.cbHeaderSize == SIZEOF_HEADER && h.nSignature == DETOUR_SECTION_HEADER_SIGNATURE
    && h.nDataOffset == p.data && h.cbDataSize == p.data + |c.data| && h.cbPrePE == |c.prePE|
  }

  /** Writing into the buffer at an offset. */
  method Fill(a: array<byte>, o: nat, bytes: seq<byte>)
    requires o + |bytes| <= a.Length
    modifies a
    ensures a[o..o + |bytes|] == bytes
    ensures forall i | 0 <= i < a.Length && !(o <= i < o + |bytes|) :: a[i] == old(a[i])
  {
    forall i | 0 <= i < |bytes| {
      a[o + i] := bytes[i];
    }
  }

  lemma HoldsElsewhere(s: seq<byte>, s': seq<byte>, o: nat, bytes: seq<byte>, at: nat, cb: nat)
    requires Holds(s, o, bytes) && |s'| == |s| && (o + |bytes| <= at || at + cb <= o)
    requires forall i | 0 <= i < |s| && !(at <= i < at + cb) :: s'[i] == s[i]
    ensures Holds(s', o, bytes)
  {}

  lemma Multiple(n: nat)
    ensures n % 8 == 0 ==> QuadAlign(n) == n
    ensures QuadAlign(SIZEOF_HEADER) == SIZEOF_HEADER
  {}

  /** The allocations of Write, in its order: with a pre-PE size that is a multiple of 8 they all
    * succeed and use the requested size exactly.
    */
  method Allocations(out: CImageOutput, c: Contents, noMemory: bool) returns (ok: bool, p: Parts)
    requires out.Valid() && out.m_nOutputVirtSize == 0
    modifies out, out.m_pbOutputBuffer
    ensures out.Valid() && out.m_nOutputVirtAddr == old(out.m_nOutputVirtAddr)
    ensures out.m_nNextFileAddr == old(out.m_nNextFileAddr) && out.m_nNextVirtAddr == old(out.m_nNextVirtAddr)
    ensures |c.prePE| % 8 == 0 && !noMemory ==> ok
    ensures ok ==> out.m_pbOutputBuffer != null && (fresh(out.m_pbOutputBuffer) || out.m_pbOutputBuffer == old(out.m_pbOutputBuffer))
    ensures ok ==> InOrder(p, c, out.m_nOutputVirtSize) && out.m_nOutputVirtSize <= out.m_pbOutputBuffer.Length
    ensures ok && |c.prePE| % 8 == 0 ==> out.m_nOutputVirtSize == Requested(c)
  {
    hide QuadAlign;
    Multiple(|c.prePE|);
    p := Parts(0, 0, 0, 0, 0, 0);
    ok := out.SizeOutputBuffer(Requested(c), noMemory);
    if !ok { return; }
    var oHead, va;
    ok, oHead, va := out.AllocateOutput(SIZEOF_HEADER);
    if !ok { return; }
    var oPrePE, oLookup, oBound, oNames, oData, oImports;
    ok, oPrePE, va := out.AllocateOutput(|c.prePE|);
    if !ok { return; }
    ok, oLookup, va := out.AllocateOutput(|c.lookup|);
    if !ok { return; }
    ok, oBound, va := out.AllocateOutput(|c.bound|);
    if !ok { return; }
    ok, oNames, va := out.AllocateOutput(|c.names|);
    if !ok { return; }
    ok, oData, va := out.AllocateOutput(|c.data|);
    if !ok { return; }
    ok, oImports, va := out.AllocateOutput(|c.imports|);
    p := Parts(oPrePE, oLookup, oBound, oNames, oData, oImports);
  }

  predicate HoldsData(s: seq<byte>, h: DetourHeader, p: Parts, c: Contents)
    requires Small(h)
  {
    Holds(s, 0, EncodeHeader(h)) && Holds(s, p.prePE, c.prePE) && Holds(s, p.data, c.data)
  }

  predicate HoldsTables(s: seq<byte>, p: Parts, c: Contents) {
    Holds(s, p.lookup, c.lookup) && Holds(s, p.bound, c.bound) && Holds(s, p.names, c.names) && Holds(s, p.imports, c.imports)
  }

  /** The three copies that Write makes once everything has its place. */
  method FillData(a: array<byte>, h: DetourHeader, p: Parts, c: Contents, end: nat)
    requires InOrder(p, c, end) && end <= a.Length && Small(h)
    modifies a
    ensures HoldsData(a[..], h, p, c)
  {
    hide QuadAlign, EncodeHeader, Small;
    Fill(a, 0, EncodeHeader(h));
    ghost var s1 := a[..];
    Fill(a, p.prePE, c.prePE);
    ghost var s2 := a[..];
    HoldsElsewhere(s1, s2, 0, EncodeHeader(h), p.prePE, |c.prePE|);
    Fill(a, p.data, c.data);
    HoldsElsewhere(s2, a[..], 0, EncodeHeader(h), p.data, |c.data|);
    HoldsElsewhere(s2, a[..], p.prePE, c.prePE, p.data, |c.data|);
  }

  /** The import tables, written into the room between and behind them. */
  method FillTables(a: array<byte>, h: DetourHeader, p: Parts, c: Contents, end: nat)
    requires InOrder(p, c, end) && end <= a.Length && Small(h) && HoldsData(a[..], h, p, c)
    modifies a
    ensures HoldsData(a[..], h, p, c) && HoldsTables(a[..], p, c)
  {
    hide QuadAlign, EncodeHeader, Small, Holds;
    ghost var s3 := a[..];
    FillOne(a, p.lookup, c.lookup);
    ghost var s4 := a[..];
    ThreeKept(s3, s4, h, p, c, p.lookup, |c.lookup|);
    FillOne(a, p.bound, c.bound);
    ghost var s5 := a[..];
    ThreeKept(s4, s5, h, p, c, p.bound, |c.bound|);
    HoldsElsewhere(s4, s5, p.lookup, c.lookup, p.bound, |c.bound|);
    FillOne(a, p.names, c.names);
    ghost var s6 := a[..];
    ThreeKept(s5, s6, h, p, c, p.names, |c.names|);
    HoldsElsewhere(s5, s6, p.lookup, c.lookup, p.names, |c.names|);
    HoldsElsewhere(s5, s6, p.bound, c.bound, p.names, |c.names|);
    FillOne(a, p.imports, c.imports);
    ThreeKept(s6, a[..], h, p, c, p.imports, |c.imports|);
    HoldsElsewhere(s6, a[..], p.lookup, c.lookup, p.imports, |c.imports|);
    HoldsElsewhere(s6, a[..], p.bound, c.bound, p.imports, |c.imports|);
    HoldsElsewhere(s6, a[..], p.names, c.names, p.imports, |c.imports|);
  }

  method FillOne(a: array<byte>, o: nat, bytes: seq<byte>)
    requires o + |bytes| <= a.Length
    modifies a
    ensures Holds(a[..], o, bytes)
    ensures forall i | 0 <= i < a.Length && !(o <= i < o + |bytes|) :: a[..][i] == old(a[..])[i]
  {
    Fill(a, o, bytes);
    assert forall i | 0 <= i < a.Length :: a[..][i] == a[i] && old(a[..])[i] == old(a[i]);
  }

  /** Header, pre-PE bytes and payload survive a write elsewhere. */
  lemma ThreeKept(s: seq<byte>, s': seq<byte>, h: DetourHeader, p: Parts, c: Contents, at: nat, cb: nat)
    requires Small(h) && HoldsData(s, h, p, c) && |s'| == |s|
    requires p.prePE == SIZEOF_HEADER && p.prePE + |c.prePE| <= at && (p.data + |c.data| <= at || at + cb <= p.data)
    requires forall i | 0 <= i < |s| && !(at <= i < at + cb) :: s'[i] == s[i]
    ensures HoldsData(s', h, p, c)
  {
    hide Small, EncodeHeader;
    HoldsElsewhere(s, s', 0, EncodeHeader(h), at, cb);
    HoldsElsewhere(s, s', p.prePE, c.prePE, at, cb);
    HoldsElsewhere(s, s', p.data, c.data, at, cb);
  }

  lemma HoldsPrefix(s: seq<byte>, n: nat, o: nat, bytes: seq<byte>)
    requires Holds(s, o, bytes) && o + |bytes| <= n <= |s|
    ensures Holds(s[..n], o, bytes)
  {}

  lemma SectionPrefix(s: seq<byte>, n: nat, h: DetourHeader, p: Parts, c: Contents, end: nat)
    requires IsSection(s, h, p, c) && InOrder(p, c, end) && end <= n <= |s|
    ensures IsSection(s[..n], h, p, c)
  {
    hide Holds, Small, QuadAlign, EncodeHeader;
    HoldsPrefix(s, n, 0, EncodeHeader(h));
    HoldsPrefix(s, n, p.prePE, c.prePE);
    HoldsPrefix(s, n, p.data, c.data);
    HoldsPrefix(s, n, p.lookup, c.lookup);
    HoldsPrefix(s, n, p.bound, c.bound);
    HoldsPrefix(s, n, p.names, c.names);
    HoldsPrefix(s, n, p.imports, c.imports);
  }
}
