/** `CImage::Write` for an image that gets a .detour section, and the part of `CImage::Read` that takes
  * the section away (detours/src/image.cpp:1104-1118, 1263-1320, 1630-1921).
  */
module ImageWrite {
  import opened PayloadLayout
  import opened ImageOutput
  import opened ImageSection
  import opened ImageImports
  import opened ImageSerial

  function Max(a: nat, b: nat): nat { if a > b then a else b }

  function FileEnd(s: SectionHeader): nat { s.PointerToRawData + s.SizeOfRawData }

  /** Old images have no VirtualSize; the size of the raw data stands for it. */
  function VirtualEnd(s: SectionHeader, sectionAlignment: nat): nat
    requires sectionAlignment > 0
  {
    s.VirtualAddress + if s.VirtualSize != 0 then s.VirtualSize else Align(s.SizeOfRawData, sectionAlignment)
  }

  // ----------------------------------------------------- Where the sections end

  /** The file address behind the headers and sections. */
  function NextFile(ss: seq<SectionHeader>, sizeOfHeaders: nat, fileAlignment: nat): (r: nat)
    requires fileAlignment > 0
    ensures IsMultiple(r, fileAlignment)
  {
    if ss == [] then Align(sizeOfHeaders, fileAlignment)
    else Align(Max(FileEnd(ss[|ss| - 1]), NextFile(ss[..|ss| - 1], sizeOfHeaders, fileAlignment)), fileAlignment)
  }

  function NextVirt(ss: seq<SectionHeader>, sectionAlignment: nat): (r: nat)
    requires sectionAlignment > 0
    ensures IsMultiple(r, sectionAlignment)
  {
    if ss == [] then Align(0, sectionAlignment)
    else Align(Max(VirtualEnd(ss[|ss| - 1], sectionAlignment), NextVirt(ss[..|ss| - 1], sectionAlignment)), sectionAlignment)
  }

  /** m_nExtraOffset after the loop over the sections, each end taken before it is aligned. */
  function NextExtra(ss: seq<SectionHeader>, sizeOfHeaders: nat, nExtraOffset: nat, fileAlignment: nat): (r: nat)
    requires fileAlignment > 0
    ensures r >= nExtraOffset
  {
    if ss == [] then nExtraOffset
    else
      var front := ss[..|ss| - 1];
      Max(Max(FileEnd(ss[|ss| - 1]), NextFile(front, sizeOfHeaders, fileAlignment)), NextExtra(front, sizeOfHeaders, nExtraOffset, fileAlignment))
  }

  /** The new section's header keeps its place: the last section ends at a multiple of the alignment, or
    * no later than what is before it, or left-over data is known to begin no earlier than the new section.
    */
  predicate PointsRight(ss: seq<SectionHeader>, sizeOfHeaders: nat, nExtraOffset: nat, fileAlignment: nat)
    requires fileAlignment > 0
  {
    || NextFile(ss, sizeOfHeaders, fileAlignment) <= nExtraOffset
    || (ss != [] && (IsMultiple(FileEnd(ss[|ss| - 1]), fileAlignment)
                     || FileEnd(ss[|ss| - 1]) <= NextFile(ss[..|ss| - 1], sizeOfHeaders, fileAlignment)))
  }

  lemma {:induction false} ExtraBound(ss: seq<SectionHeader>, sizeOfHeaders: nat, nExtraOffset: nat, fileAlignment: nat)
    requires fileAlignment > 0
    ensures NextExtra(ss, sizeOfHeaders, nExtraOffset, fileAlignment) <= Max(nExtraOffset, NextFile(ss, sizeOfHeaders, fileAlignment))
  {
    hide Align, IsMultiple;
    if ss != [] { ExtraBound(ss[..|ss| - 1], sizeOfHeaders, nExtraOffset, fileAlignment); }
  }

  lemma AlignedAlready(a: nat, size: nat)
    requires size > 0
    ensures Align(a, size) == a <==> IsMultiple(a, size)
  {
    if IsMultiple(a, size) { AlignLeast(a, a, size); }
  }

  /** The rule by which the loop over left-over data moves the new header or not. */
  lemma PointerRule(ss: seq<SectionHeader>, sizeOfHeaders: nat, nExtraOffset: nat, fileAlignment: nat)
    requires fileAlignment > 0
    ensures NextFile(ss, sizeOfHeaders, fileAlignment) <= NextExtra(ss, sizeOfHeaders, nExtraOffset, fileAlignment)
       <==> PointsRight(ss, sizeOfHeaders, nExtraOffset, fileAlignment)
  {
    hide Align, IsMultiple;
    if ss != [] {
      var front, end := ss[..|ss| - 1], FileEnd(ss[|ss| - 1]);
      ExtraBound(front, sizeOfHeaders, nExtraOffset, fileAlignment);
      AlignedAlready(Max(end, NextFile(front, sizeOfHeaders, fileAlignment)), fileAlignment);
      AlignedAlready(end, fileAlignment);
    }
  }

  lemma {:induction false} EndsBelow(ss: seq<SectionHeader>, sizeOfHeaders: nat, fileAlignment: nat, sectionAlignment: nat)
    requires fileAlignment > 0 && sectionAlignment > 0
    ensures forall s | s in ss ::
      FileEnd(s) <= NextFile(ss, sizeOfHeaders, fileAlignment) && VirtualEnd(s, sectionAlignment) <= NextVirt(ss, sectionAlignment)
  {
    hide Align, IsMultiple, VirtualEnd;
    if ss != [] {
      EndsBelow(ss[..|ss| - 1], sizeOfHeaders, fileAlignment, sectionAlignment);
      assert ss == ss[..|ss| - 1] + [ss[|ss| - 1]];
    }
  }

  lemma {:induction false} EndsAtExtra(ss: seq<SectionHeader>, sizeOfHeaders: nat, nExtraOffset: nat, fileAlignment: nat)
    requires fileAlignment > 0
    ensures forall s | s in ss :: FileEnd(s) <= NextExtra(ss, sizeOfHeaders, nExtraOffset, fileAlignment)
  {
    hide Align, IsMultiple, NextFile;
    if ss != [] {
      EndsAtExtra(ss[..|ss| - 1], sizeOfHeaders, nExtraOffset, fileAlignment);
      assert ss == ss[..|ss| - 1] + [ss[|ss| - 1]];
    }
  }

  // ------------------------------------------------ Where the new section belongs

  lemma FactorZero(k: int, size: int, d: int)
    requires size > 0 && -size < d < size && d == k * size
    ensures k == 0
  {}

  lemma RemainderIs(a: nat, q: nat, r: nat, size: nat)
    requires size > 0 && r < size && a == q * size + r
    ensures a % size == r && a / size == q
  {
    var d := q - a / size;
    assert d * size == q * size - a / size * size;
    assert a == a / size * size + a % size;
    FactorZero(d, size, a % size - r);
  }

  lemma {:induction false} MultipleIs(a: nat, size: nat)
    requires size > 0
    ensures IsMultiple(a, size) <==> a % size == 0
    decreases a
  {
    if a >= size {
      MultipleIs(a - size, size);
      var q, r := (a - size) / size, (a - size) % size;
      assert (q + 1) * size == q * size + size;
      RemainderIs(a, q + 1, r, size);
    } else {
      RemainderIs(a, 0, a, size);
    }
  }

  /** The size of the raw data, rounded up to the alignment. */
  function RoundedUp(a: nat, size: nat): nat
    requires size > 0
  {
    (a + size - 1) / size * size
  }

  lemma AlignRounds(a: nat, size: nat)
    requires size > 0
    ensures Align(a, size) == RoundedUp(a, size)
  {
    hide IsMultiple, Align;
    var r := Align(a, size);
    MultipleIs(r, size);
    RemainderIs(r, r / size, 0, size);
    RemainderIs(a + size - 1, r / size, a + size - 1 - r, size);
  }

  /** Behind the headers and every section in the file, aligned, and no further than that. */
  ghost predicate FollowsInFile(address: nat, ss: seq<SectionHeader>, sizeOfHeaders: nat, fileAlignment: nat)
    requires fileAlignment > 0
  {
    && BehindInFile(address, ss, sizeOfHeaders, fileAlignment)
    && forall q | BehindInFile(q, ss, sizeOfHeaders, fileAlignment) :: address <= q
  }

  predicate BehindInFile(q: nat, ss: seq<SectionHeader>, sizeOfHeaders: nat, fileAlignment: nat)
    requires fileAlignment > 0
  {
    q % fileAlignment == 0 && sizeOfHeaders <= q && forall s | s in ss :: s.PointerToRawData + s.SizeOfRawData <= q
  }

  /** The same in memory, where a section without a virtual size takes its raw data, rounded up. */
  ghost predicate FollowsInMemory(address: nat, ss: seq<SectionHeader>, sectionAlignment: nat)
    requires sectionAlignment > 0
  {
    && BehindInMemory(address, ss, sectionAlignment)
    && forall q | BehindInMemory(q, ss, sectionAlignment) :: address <= q
  }

  predicate BehindInMemory(q: nat, ss: seq<SectionHeader>, sectionAlignment: nat)
    requires sectionAlignment > 0
  {
    && q % sectionAlignment == 0
    && (forall s | s in ss && s.VirtualSize != 0 :: s.VirtualAddress + s.VirtualSize <= q)
    && (forall s | s in ss && s.VirtualSize == 0 :: s.VirtualAddress + RoundedUp(s.SizeOfRawData, sectionAlignment) <= q)
  }

  lemma VirtualEndIs(s: SectionHeader, sectionAlignment: nat)
    requires sectionAlignment > 0
    ensures VirtualEnd(s, sectionAlignment) == s.VirtualAddress + if s.VirtualSize != 0 then s.VirtualSize else RoundedUp(s.SizeOfRawData, sectionAlignment)
  {
    AlignRounds(s.SizeOfRawData, sectionAlignment);
  }

  lemma {:induction false} NextFileLeast(ss: seq<SectionHeader>, sizeOfHeaders: nat, fileAlignment: nat, q: nat)
    requires fileAlignment > 0 && BehindInFile(q, ss, sizeOfHeaders, fileAlignment)
    ensures NextFile(ss, sizeOfHeaders, fileAlignment) <= q
  {
    hide Align, IsMultiple;
    MultipleIs(q, fileAlignment);
    if ss == [] {
      AlignLeast(sizeOfHeaders, q, fileAlignment);
    } else {
      NextFileLeast(ss[..|ss| - 1], sizeOfHeaders, fileAlignment, q);
      assert ss[|ss| - 1] in ss;
      AlignLeast(Max(FileEnd(ss[|ss| - 1]), NextFile(ss[..|ss| - 1], sizeOfHeaders, fileAlignment)), q, fileAlignment);
    }
  }

  lemma {:induction false} NextVirtLeast(ss: seq<SectionHeader>, sectionAlignment: nat, q: nat)
    requires sectionAlignment > 0 && BehindInMemory(q, ss, sectionAlignment)
    ensures NextVirt(ss, sectionAlignment) <= q
  {
    hide Align, IsMultiple, RoundedUp, VirtualEnd;
    MultipleIs(q, sectionAlignment);
    if ss == [] {
      AlignLeast(0, q, sectionAlignment);
    } else {
      NextVirtLeast(ss[..|ss| - 1], sectionAlignment, q);
      assert ss[|ss| - 1] in ss;
      VirtualEndIs(ss[|ss| - 1], sectionAlignment);
      AlignLeast(Max(VirtualEnd(ss[|ss| - 1], sectionAlignment), NextVirt(ss[..|ss| - 1], sectionAlignment)), q, sectionAlignment);
    }
  }

  lemma {:induction false} HeadersBelow(ss: seq<SectionHeader>, sizeOfHeaders: nat, fileAlignment: nat)
    requires fileAlignment > 0
    ensures sizeOfHeaders <= NextFile(ss, sizeOfHeaders, fileAlignment)
  {
    hide IsMultiple;
    if ss != [] { HeadersBelow(ss[..|ss| - 1], sizeOfHeaders, fileAlignment); }
  }

  /** The addresses that the loop over the sections arrives at are those. */
  lemma NextFollows(ss: seq<SectionHeader>, sizeOfHeaders: nat, fileAlignment: nat, sectionAlignment: nat)
    requires fileAlignment > 0 && sectionAlignment > 0
    ensures FollowsInFile(NextFile(ss, sizeOfHeaders, fileAlignment), ss, sizeOfHeaders, fileAlignment)
    ensures FollowsInMemory(NextVirt(ss, sectionAlignment), ss, sectionAlignment)
  {
    hide IsMultiple, Align, NextFile, NextVirt, VirtualEnd, RoundedUp;
    EndsBelow(ss, sizeOfHeaders, fileAlignment, sectionAlignment);
    HeadersBelow(ss, sizeOfHeaders, fileAlignment);
    MultipleIs(NextFile(ss, sizeOfHeaders, fileAlignment), fileAlignment);
    MultipleIs(NextVirt(ss, sectionAlignment), sectionAlignment);
    forall s | s in ss
      ensures VirtualEnd(s, sectionAlignment) == s.VirtualAddress + if s.VirtualSize != 0 then s.VirtualSize else RoundedUp(s.SizeOfRawData, sectionAlignment)
    {
      VirtualEndIs(s, sectionAlignment);
    }
    forall q | BehindInFile(q, ss, sizeOfHeaders, fileAlignment)
      ensures NextFile(ss, sizeOfHeaders, fileAlignment) <= q
    {
      NextFileLeast(ss, sizeOfHeaders, fileAlignment, q);
    }
    forall q | BehindInMemory(q, ss, sectionAlignment)
      ensures NextVirt(ss, sectionAlignment) <= q
    {
      NextVirtLeast(ss, sectionAlignment, q);
    }
  }

  /** A section that ends at 210h with an alignment of 200h, and nothing left over: the new section begins
    * at 400h and its header is moved with the left-over data.
    */
  lemma HeaderIsMoved(s: SectionHeader)
    requires FileEnd(s) == 0x210
    ensures NextFile([s], 0x200, 0x200) == 0x400 && !PointsRight([s], 0x200, 0x210, 0x200)
  {
    assert [s][..0] == [];
    assert Align(0x200, 0x200) == 0x200;
    assert Align(0x210, 0x200) == 0x400;
    assert !IsMultiple(0x10, 0x200);
  }

  const DETOUR_NAME := ".detour"

  /** What Write leaves besides the headers: the section's raw bytes, the file offset they are written
    * to, and the header and layout inside them.
    */
  datatype Written = Written(raw: seq<byte>, fileAddr: nat, dh: DetourHeader, parts: Parts)

  class CImage {
    const out: CImageOutput
    const SizeOfHeaders: nat
    var m_headers: Headers
    var m_prePE: seq<byte>
    var m_nExtraOffset: nat

    constructor (h: Headers, prePE: seq<byte>, nExtraOffset: nat, sizeOfHeaders: nat, fileAlignment: nat, sectionAlignment: nat)
      requires fileAlignment > 0 && sectionAlignment > 0
      ensures fresh(out) && out.Valid() && out.m_pbOutputBuffer == null && SizeOfHeaders == sizeOfHeaders
      ensures m_headers == h && m_prePE == prePE && m_nExtraOffset == nExtraOffset
      ensures out.FileAlignment == fileAlignment && out.SectionAlignment == sectionAlignment
    {
      out := new CImageOutput(fileAlignment, sectionAlignment);
      m_headers, m_prePE, m_nExtraOffset, SizeOfHeaders := h, prePE, nExtraOffset, sizeOfHeaders;
    }

    /** The loop over the sections: where the next one begins, and from where data is left over. */
    method CopySections(noMemory: bool) returns (ok: bool)
      requires out.Valid()
      modifies this`m_nExtraOffset, out, out.m_pbOutputBuffer
      ensures out.Valid() && m_headers == old(m_headers) && (ok || noMemory)
      ensures out.m_pbOutputBuffer == old(out.m_pbOutputBuffer) || (out.m_pbOutputBuffer != null && fresh(out.m_pbOutputBuffer))
      ensures ok ==>
        && out.m_nNextFileAddr == NextFile(m_headers.sections, SizeOfHeaders, out.FileAlignment)
        && out.m_nNextVirtAddr == NextVirt(m_headers.sections, out.SectionAlignment)
        && m_nExtraOffset == NextExtra(m_headers.sections, SizeOfHeaders, old(m_nExtraOffset), out.FileAlignment)
    {
      hide IsMultiple, Align;
      var filled;
      out.m_nNextFileAddr := SizeOfHeaders;
      out.m_nNextVirtAddr := 0;
      ok, filled := out.AlignFileData(noMemory);
      if !ok { return; }
      var ss := m_headers.sections;
      var n := 0;
      while n < |ss|
        invariant n <= |ss| && out.Valid() && ss == m_headers.sections && m_headers == old(m_headers)
        invariant out.m_pbOutputBuffer == old(out.m_pbOutputBuffer) || (out.m_pbOutputBuffer != null && fresh(out.m_pbOutputBuffer))
        invariant out.m_nNextFileAddr == NextFile(ss[..n], SizeOfHeaders, out.FileAlignment)
        invariant out.m_nNextVirtAddr == NextVirt(ss[..n], out.SectionAlignment)
        invariant m_nExtraOffset == NextExtra(ss[..n], SizeOfHeaders, old(m_nExtraOffset), out.FileAlignment)
      {
        assert ss[..n + 1][..n] == ss[..n];
        out.m_nNextFileAddr := Max(FileEnd(ss[n]), out.m_nNextFileAddr);
        out.m_nNextVirtAddr := Max(VirtualEnd(ss[n], out.SectionAlignment), out.m_nNextVirtAddr);
        m_nExtraOffset := Max(out.m_nNextFileAddr, m_nExtraOffset);
        ok, filled := out.AlignFileData(noMemory);
        if !ok { return; }
        n := n + 1;
      }
      assert ss[..n] == ss;
    }

    /** The header of the section as Write fills it in. */
    function DetourHeaderFor(p: Parts, c: Contents, clrFlags: nat): DetourHeader
      reads this
    {
      DetourHeader(SIZEOF_HEADER, DETOUR_SECTION_HEADER_SIGNATURE, p.data, p.data + |c.data|,
                   m_headers.imports, m_headers.boundImports, m_headers.iat, m_headers.SizeOfImage, |c.prePE|, clrFlags)
    }

    /** The section's bytes, built in the output buffer at the next addresses. */
    method BuildSection(c: Contents, clrFlags: nat, noMemory: bool) returns (ok: bool, w: Written, size: nat)
      requires out.Valid() && IsMultiple(out.m_nNextFileAddr, out.FileAlignment) && |c.prePE| % 8 == 0
      requires Requested(c) < DWORD_LIMIT && clrFlags < DWORD_LIMIT && SmallHeaders(m_headers)
      modifies out, out.m_pbOutputBuffer
      ensures out.Valid() && (ok || noMemory)
      ensures ok ==>
        && w.fileAddr == old(out.m_nNextFileAddr) && |w.raw| == Align(size, out.FileAlignment)
        && InOrder(w.parts, c, size) && w.dh == DetourHeaderFor(w.parts, c, clrFlags) && IsSection(w.raw, w.dh, w.parts, c)
        && out.m_nOutputVirtAddr == old(out.m_nNextVirtAddr)
        && out.m_nNextFileAddr == old(out.m_nNextFileAddr) + |w.raw|
        && out.m_nNextVirtAddr == Align(old(out.m_nNextVirtAddr) + size, out.SectionAlignment)
    {
      hide IsMultiple, Align, Small, HoldsData, HoldsTables, EncodeHeader, QuadAlign;
      w, size := Written([], 0, DetourHeader(0, 0, 0, 0, Directory(0, 0), Directory(0, 0), Directory(0, 0), 0, 0, 0), Parts(0, 0, 0, 0, 0, 0)), 0;
      out.m_nOutputVirtAddr := out.m_nNextVirtAddr;
      out.m_nOutputVirtSize := 0;
      var nOutputFileAddr := out.m_nNextFileAddr;
      var p;
      ok, p := Allocations(out, c, noMemory);
      if !ok { return; }
      var a := out.m_pbOutputBuffer;
      size := out.m_nOutputVirtSize;
      var dh := DetourHeaderFor(p, c, clrFlags);
      SmallHeader(m_headers, dh, p, c, size);
      FillData(a, dh, p, c, size);
      FillTables(a, dh, p, c, size);
      out.m_nNextVirtAddr := out.m_nNextVirtAddr + size;
      var cbRaw := Align(size, out.FileAlignment);
      out.m_nNextFileAddr := out.m_nNextFileAddr + cbRaw;
      MultiplesAdd(nOutputFileAddr, cbRaw, out.FileAlignment);
      ghost var built, next := a[..], out.m_nNextFileAddr;
      var filled;
      ok, filled := out.AlignFileData(noMemory);
      AlignLeast(next, next, out.FileAlignment);
      AlignLeast(size, out.m_cbOutputBuffer, out.FileAlignment);
      SectionPrefix(built, cbRaw, dh, p, c, size);
      w := Written(a[..cbRaw], nOutputFileAddr, dh, p);
    }

    /** The loop that moves the data behind the sections: it also looks at the new section. */
    method AdjustExtra(nExtraAdjust: int)
      requires forall s | s in m_headers.sections :: s.PointerToRawData > m_nExtraOffset ==> s.PointerToRawData + nExtraAdjust >= 0
      modifies this`m_headers
      ensures m_headers == old(m_headers).(sections := m_headers.sections) && |m_headers.sections| == |old(m_headers).sections|
      ensures forall i | 0 <= i < |m_headers.sections| :: m_headers.sections[i] == Adjusted(old(m_headers).sections[i], m_nExtraOffset, nExtraAdjust)
    {
      var ss := m_headers.sections;
      var n := 0;
      while n < |ss|
        invariant n <= |ss| == |old(m_headers).sections|
        invariant forall i | 0 <= i < n :: ss[i] == Adjusted(old(m_headers).sections[i], m_nExtraOffset, nExtraAdjust)
        invariant forall i | n <= i < |ss| :: ss[i] == old(m_headers).sections[i]
      {
        if ss[n].PointerToRawData > m_nExtraOffset {
          assert old(m_headers).sections[n] in old(m_headers).sections;
          ss := ss[n := ss[n].(PointerToRawData := ss[n].PointerToRawData + nExtraAdjust)];
        }
        n := n + 1;
      }
      m_headers := m_headers.(sections := ss);
    }

    /** Write, for an image that gets a section, as one with changed imports or a payload does: both passes
      * over the imports agree, the section shows the import list to a loader, and its header points to it
      * exactly if PointsRight. `c` is what the section holds.
      */
    method Write(m_pImportFiles: seq<ImportFile>, payload: seq<byte>, clrFlags: nat, noMemory: bool) returns (ok: bool, w: Written, c: Contents)
      requires out.Valid() && |m_prePE| % 8 == 0 && clrFlags < DWORD_LIMIT && SmallHeaders(m_headers)
      requires AllWritable(m_pImportFiles) && (forall f | f in m_pImportFiles :: Storable(f)) && (AnyChanged(m_pImportFiles) || payload != [])
      requires NextVirt(m_headers.sections, out.SectionAlignment) + Align(Needed(|m_prePE|, m_pImportFiles, |payload|), out.FileAlignment) < DWORD_LIMIT
      modifies this, out, out.m_pbOutputBuffer
      ensures out.Valid()
      ensures !ok ==> noMemory || |old(m_headers).sections| >= MAX_SECTIONS
      ensures ok ==> c.prePE == old(m_prePE) && c.data == payload && w.dh.nOriginalClrFlags == clrFlags
      ensures ok ==> w.fileAddr == NextFile(old(m_headers).sections, SizeOfHeaders, out.FileAlignment)
      ensures ok ==> FollowsInFile(w.fileAddr, old(m_headers).sections, SizeOfHeaders, out.FileAlignment)
      ensures ok ==> Inserted(old(m_headers), m_headers, w, c, out.SectionAlignment)
      ensures ok ==> FollowsInMemory(Last(m_headers).VirtualAddress, old(m_headers).sections, out.SectionAlignment)
      ensures ok ==>
        (Last(m_headers).PointerToRawData == w.fileAddr
         <==> PointsRight(old(m_headers).sections, SizeOfHeaders, old(m_nExtraOffset), out.FileAlignment))
      ensures ok ==> ShowsImports(w.raw, Last(m_headers).VirtualAddress, w.parts.imports, m_pImportFiles)
    {
      hide IsMultiple, Align, IsSection, QuadAlign, InOrder, SmallHeaders, NextFile, NextVirt, NextExtra, PointsRight, Emitted, Counted,
           ShowsImports, Requested, Needed, AllWritable, AnyChanged, FollowsInFile, FollowsInMemory;
      w := Written([], 0, DetourHeader(0, 0, 0, 0, Directory(0, 0), Directory(0, 0), Directory(0, 0), 0, 0, 0), Parts(0, 0, 0, 0, 0, 0));
      c := Contents([], [], [], [], [], []);
      ghost var h := m_headers;
      var need, nTables, nThunks, nChars := CheckImportsNeeded(m_pImportFiles);
      ok := CopySections(noMemory);
      if !ok { return; }
      if |m_headers.sections| >= MAX_SECTIONS {
        return false, w, c;
      }
      c := EmitTables(m_pImportFiles, m_prePE, payload, out.m_nNextVirtAddr, nTables, nThunks, nChars);
      NeededIs(c, m_pImportFiles, out.m_nNextVirtAddr, out.FileAlignment);
      ghost var va := out.m_nNextVirtAddr;
      var size;
      ok, w, size := BuildSection(c, clrFlags, noMemory);
      if !ok { return; }
      SizeIs(w.parts, c, size);
      SectionShows(w.raw, w.dh, w.parts, c, size, m_pImportFiles, va);
      EndsAtExtra(h.sections, SizeOfHeaders, old(m_nExtraOffset), out.FileAlignment);
      InsertHeader(w, size, |c.imports|);
      PointerRule(h.sections, SizeOfHeaders, old(m_nExtraOffset), out.FileAlignment);
      EndsBelow(h.sections, SizeOfHeaders, out.FileAlignment, out.SectionAlignment);
      NextFollows(h.sections, SizeOfHeaders, out.FileAlignment, out.SectionAlignment);
    }

    /** The headers once the section has been built. */
    method InsertHeader(w: Written, size: nat, cbImports: nat)
      requires forall s | s in m_headers.sections :: FileEnd(s) <= m_nExtraOffset
      requires w.fileAddr <= out.m_nNextFileAddr
      modifies this`m_headers
      ensures var h, d := old(m_headers), SectionHeader(DETOUR_NAME, size, out.m_nOutputVirtAddr, |w.raw|, w.fileAddr);
        && m_headers.sections == h.sections + [if w.fileAddr > m_nExtraOffset
             then d.(PointerToRawData := w.fileAddr + (out.m_nNextFileAddr - m_nExtraOffset)) else d]
        && m_headers == Headers(m_headers.sections, Directory(d.VirtualAddress + w.parts.imports, cbImports), Directory(0, 0), h.iat, out.m_nNextVirtAddr)
    {
      var d := SectionHeader(DETOUR_NAME, size, out.m_nOutputVirtAddr, |w.raw|, w.fileAddr);
      m_headers := m_headers.(
        sections := m_headers.sections + [d],
        imports := Directory(d.VirtualAddress + w.parts.imports, cbImports),
        boundImports := Directory(0, 0));
      AdjustExtra(out.m_nNextFileAddr - m_nExtraOffset);
      m_headers := m_headers.(SizeOfImage := out.m_nNextVirtAddr);
      ghost var h := old(m_headers);
      forall i | 0 <= i < |h.sections|
        ensures m_headers.sections[i] == h.sections[i]
      {
        assert h.sections[i] in h.sections;
      }
    }
  }

  /** The bytes that the section needs, by the counting pass. */
  function Needed(cbPrePE: nat, fs: seq<ImportFile>, cbData: nat): nat {
    QuadAlign(SIZEOF_HEADER) + cbPrePE + QuadAlign(cbData) + QuadAlign(SIZEOF_THUNK * Thunks(fs)) + QuadAlign(SIZEOF_THUNK * Thunks(fs))
    + QuadAlign(Chars(fs)) + QuadAlign(SIZEOF_DESCRIPTOR * (|fs| + 1))
  }

  lemma SizeIs(p: Parts, c: Contents, end: nat)
    requires InOrder(p, c, end) && |c.prePE| % 8 == 0
    ensures end == Requested(c)
  {
    hide QuadAlign;
    Multiple(|c.prePE|);
  }

  /** What is asked of the buffer is what was counted. */
  lemma NeededIs(c: Contents, fs: seq<ImportFile>, va: nat, fileAlignment: nat)
    requires Emitted(c, fs, va) && fileAlignment > 0
    ensures Requested(c) == Needed(|c.prePE|, fs, |c.data|) <= Align(Needed(|c.prePE|, fs, |c.data|), fileAlignment)
  {
    hide QuadAlign, Align;
  }

  function Adjusted(s: SectionHeader, nExtraOffset: nat, nExtraAdjust: int): SectionHeader
    requires s.PointerToRawData > nExtraOffset ==> s.PointerToRawData + nExtraAdjust >= 0
  {
    if s.PointerToRawData > nExtraOffset then s.(PointerToRawData := s.PointerToRawData + nExtraAdjust) else s
  }

  function Last(h: Headers): SectionHeader
    requires h.sections != []
  {
    h.sections[|h.sections| - 1]
  }

  /** The headers `h'` are `h` with a .detour section behind all others, in the file and in memory; its
    * bytes record what they replaced.
    */
  ghost predicate Inserted(h: Headers, h': Headers, w: Written, c: Contents, sectionAlignment: nat)
    requires sectionAlignment > 0
  {
    && |h'.sections| == |h.sections| + 1 && h'.sections[..|h.sections|] == h.sections
    && (forall s | s in h.sections :: FileEnd(s) <= w.fileAddr && VirtualEnd(s, sectionAlignment) <= Last(h').VirtualAddress)
    && Last(h').Name == DETOUR_NAME && Last(h').SizeOfRawData == |w.raw|
    && InOrder(w.parts, c, Last(h').VirtualSize) && IsSection(w.raw, w.dh, w.parts, c)
    && w.dh.originalImports == h.imports && w.dh.originalBound == h.boundImports && w.dh.originalIat == h.iat
    && w.dh.nOriginalSizeOfImage == h.SizeOfImage
    && h'.imports == Directory(Last(h').VirtualAddress + w.parts.imports, |c.imports|) && h'.boundImports == Directory(0, 0)
    && h'.iat == h.iat && h'.SizeOfImage == Align(Last(h').VirtualAddress + Last(h').VirtualSize, sectionAlignment)
  }

  predicate SmallDirectory(d: Directory) { d.VirtualAddress < DWORD_LIMIT && d.Size < DWORD_LIMIT }

  predicate SmallHeaders(h: Headers) {
    SmallDirectory(h.imports) && SmallDirectory(h.boundImports) && SmallDirectory(h.iat) && h.SizeOfImage < DWORD_LIMIT
  }

  lemma SmallHeader(h: Headers, dh: DetourHeader, p: Parts, c: Contents, size: nat)
    requires SmallHeaders(h) && InOrder(p, c, size) && size == Requested(c) < DWORD_LIMIT && dh.nOriginalClrFlags < DWORD_LIMIT
    requires dh == DetourHeader(SIZEOF_HEADER, DETOUR_SECTION_HEADER_SIGNATURE, p.data, p.data + |c.data|,
                                h.imports, h.boundImports, h.iat, h.SizeOfImage, |c.prePE|, dh.nOriginalClrFlags)
    ensures Small(dh)
  {}
}
