/** Reading a written image back (detours/src/image.cpp:1104-1118, 1263-1320), and any number of
  * write-read cycles; the payload a loaded module shows (detours/src/modules.cpp:711-817).
  */
module ImageRead {
  import opened PayloadLayout
  import opened ImageOutput
  import opened ImageSection
  import opened ImageWrite
  import opened ImageImports
  import opened ImageSerial
  import PayloadStore

  /** Where the payload begins: an offset of 0 stands for the end of the header. */
  function DataOffset(dh: DetourHeader): nat { if dh.nDataOffset == 0 then dh.cbHeaderSize else dh.nDataOffset }

  /** The bytes at the section's place in the file cover what its header speaks of. */
  predicate Readable(raw: seq<byte>) {
    |raw| >= SIZEOF_HEADER
    && var dh := DecodeHeader(raw);
    SIZEOF_HEADER + dh.cbPrePE <= |raw| && DataOffset(dh) <= dh.cbDataSize <= |raw|
  }

  function ReadMax(ss: seq<SectionHeader>): nat { if ss == [] then 0 else Max(FileEnd(ss[|ss| - 1]), ReadMax(ss[..|ss| - 1])) }

  /** The headers without the section, with what its header recorded put back. */
  function Restored(h: Headers, dh: DetourHeader): Headers
    requires h.sections != []
  {
    Headers(h.sections[..|h.sections| - 1], dh.originalImports, dh.originalBound, dh.originalIat, dh.nOriginalSizeOfImage)
  }

  /** The last section, and no other, is .detour. */
  predicate EndsInDetour(h: Headers) {
    h.sections != [] && Last(h).Name == DETOUR_NAME && forall i | 0 <= i < |h.sections| - 1 :: h.sections[i].Name != DETOUR_NAME
  }

  /** Read, as far as the section is concerned. `file` is the file from an offset on, `prePE0` the bytes
    * before the PE header as they are in the file.
    */
  method ReadSection(hs: Headers, file: nat -> seq<byte>, prePE0: seq<byte>)
    returns (h: Headers, prePE: seq<byte>, payload: seq<byte>, had: bool, nExtraOffset: nat)
    requires forall s | s in hs.sections && s.Name == DETOUR_NAME :: Readable(file(s.PointerToRawData))
    ensures EndsInDetour(hs) ==>
      var raw := file(Last(hs).PointerToRawData);
      && Readable(raw) && |raw| >= SIZEOF_HEADER && had
      && var dh := DecodeHeader(raw);
      && h == Restored(hs, dh) && payload == raw[DataOffset(dh)..dh.cbDataSize]
      && prePE == if dh.cbPrePE != 0 then raw[SIZEOF_HEADER..SIZEOF_HEADER + dh.cbPrePE] else prePE0
    ensures (forall s | s in hs.sections :: s.Name != DETOUR_NAME) ==> !had && h == hs && payload == [] && prePE == prePE0
    ensures EndsInDetour(hs) ==> nExtraOffset == ReadMax(hs.sections)
  {
    hide Readable, DecodeHeader;
    prePE := prePE0;
    var n := 0;
    while n < |hs.sections|
      invariant n <= |hs.sections|
      invariant (forall i | 0 <= i < n :: hs.sections[i].Name != DETOUR_NAME) ==> prePE == prePE0
      invariant EndsInDetour(hs) && n == |hs.sections| ==>
        var raw := file(Last(hs).PointerToRawData);
        |raw| >= SIZEOF_HEADER && SIZEOF_HEADER + DecodeHeader(raw).cbPrePE <= |raw|
        && prePE == if DecodeHeader(raw).cbPrePE != 0 then raw[SIZEOF_HEADER..SIZEOF_HEADER + DecodeHeader(raw).cbPrePE] else prePE0
    {
      if hs.sections[n].Name == DETOUR_NAME {
        var raw := file(hs.sections[n].PointerToRawData);
        ReadableBytes(raw);
        var dh := DecodeHeader(raw);
        if dh.cbPrePE != 0 {
          prePE := raw[SIZEOF_HEADER..SIZEOF_HEADER + dh.cbPrePE];
        }
      }
      n := n + 1;
    }
    h, payload, had, nExtraOffset := hs, [], false, 0;
    var NumberOfSections: nat := |hs.sections|;
    n := 0;
    while n < NumberOfSections
      invariant n <= |hs.sections| && NumberOfSections <= |hs.sections|
      invariant !had ==> NumberOfSections == |hs.sections| && h == hs && payload == []
      invariant had ==> exists i | 0 <= i < n :: hs.sections[i].Name == DETOUR_NAME
      invariant EndsInDetour(hs) && n == |hs.sections| ==>
        var raw := file(Last(hs).PointerToRawData);
        && |raw| >= SIZEOF_HEADER && DataOffset(DecodeHeader(raw)) <= DecodeHeader(raw).cbDataSize <= |raw|
        && had && NumberOfSections == |hs.sections| - 1 && h == Restored(hs, DecodeHeader(raw)).(sections := hs.sections)
        && payload == raw[DataOffset(DecodeHeader(raw))..DecodeHeader(raw).cbDataSize]
      invariant nExtraOffset == ReadMax(hs.sections[..n])
      decreases |hs.sections| - n
    {
      assert hs.sections[..n + 1][..n] == hs.sections[..n];
      nExtraOffset := Max(FileEnd(hs.sections[n]), nExtraOffset);
      if hs.sections[n].Name == DETOUR_NAME {
        var raw := file(hs.sections[n].PointerToRawData);
        ReadableBytes(raw);
        var dh := DecodeHeader(raw);
        if dh.nDataOffset == 0 {
          dh := dh.(nDataOffset := dh.cbHeaderSize);
        }
        payload := raw[dh.nDataOffset..dh.cbDataSize];
        nExtraOffset := Max(FileEnd(hs.sections[n]), nExtraOffset);
        NumberOfSections := NumberOfSections - 1;
        h := Headers(hs.sections, dh.originalImports, dh.originalBound, dh.originalIat, dh.nOriginalSizeOfImage);
        had := true;
      }
      n := n + 1;
    }
    h := h.(sections := hs.sections[..NumberOfSections]);
    assert NumberOfSections == |hs.sections| ==> hs.sections[..NumberOfSections] == hs.sections;
    assert hs.sections[..|hs.sections|] == hs.sections;
  }

  lemma ReadableBytes(raw: seq<byte>)
    requires Readable(raw)
    ensures |raw| >= SIZEOF_HEADER
    ensures var dh := DecodeHeader(raw); SIZEOF_HEADER + dh.cbPrePE <= |raw| && DataOffset(dh) <= dh.cbDataSize <= |raw|
  {}

  lemma HeldHeader(raw: seq<byte>, h: DetourHeader)
    requires Small(h) && Holds(raw, 0, EncodeHeader(h))
    ensures |raw| >= SIZEOF_HEADER && DecodeHeader(raw) == h
  {
    hide Small, EncodeHeader, FromDword, Dwords;
    HeaderRoundTrip(h);
    var s := EncodeHeader(h);
    assert raw[..SIZEOF_HEADER] == s;
    forall k | 0 <= k < 16
      ensures DwordAt(raw, 4 * k) == DwordAt(s, 4 * k)
    {
      assert raw[4 * k..4 * k + 4] == s[4 * k..4 * k + 4];
    }
    assert DwordAt(raw, 4 * 0) == DwordAt(s, 0) && DwordAt(raw, 4 * 1) == DwordAt(s, 4) && DwordAt(raw, 4 * 2) == DwordAt(s, 8);
    assert DwordAt(raw, 4 * 3) == DwordAt(s, 12) && DwordAt(raw, 4 * 4) == DwordAt(s, 16) && DwordAt(raw, 4 * 5) == DwordAt(s, 20);
    assert DwordAt(raw, 4 * 6) == DwordAt(s, 24) && DwordAt(raw, 4 * 7) == DwordAt(s, 28) && DwordAt(raw, 4 * 8) == DwordAt(s, 32);
    assert DwordAt(raw, 4 * 9) == DwordAt(s, 36) && DwordAt(raw, 4 * 10) == DwordAt(s, 40) && DwordAt(raw, 4 * 11) == DwordAt(s, 44);
    assert DwordAt(raw, 4 * 12) == DwordAt(s, 48);
  }

  /** No section of the original image has the name. */
  predicate Plain(h: Headers) { forall s | s in h.sections :: s.Name != DETOUR_NAME }

  /** What Write inserts, Read takes away: the headers, the pre-PE bytes and the payload come back. */
  lemma ReadUndoesWrite(h: Headers, h': Headers, w: Written, c: Contents, sectionAlignment: nat)
    requires sectionAlignment > 0 && Inserted(h, h', w, c, sectionAlignment) && Plain(h) && c.prePE != []
    ensures EndsInDetour(h') && Readable(w.raw) && |w.raw| >= SIZEOF_HEADER
    ensures var dh := DecodeHeader(w.raw);
      && Restored(h', dh) == h && w.raw[DataOffset(dh)..dh.cbDataSize] == c.data
      && dh.cbPrePE != 0 && w.raw[SIZEOF_HEADER..SIZEOF_HEADER + dh.cbPrePE] == c.prePE
  {
    hide Small, EncodeHeader, DecodeHeader, HoldsTables, Align, QuadAlign;
    HeldHeader(w.raw, w.dh);
    assert w.dh.nDataOffset >= SIZEOF_HEADER;
    forall i | 0 <= i < |h'.sections| - 1
      ensures h'.sections[i].Name != DETOUR_NAME
    {
      assert h'.sections[i] == h'.sections[..|h.sections|][i] == h.sections[i];
    }
  }

  /** An import list that can be written to an image, with a payload. */
  predicate Writes(fs: seq<ImportFile>, h: Headers, prePE: seq<byte>, payload: seq<byte>, fileAlignment: nat, sectionAlignment: nat)
    requires fileAlignment > 0 && sectionAlignment > 0
  {
    && AllWritable(fs) && (forall f | f in fs :: Storable(f)) && (AnyChanged(fs) || payload != [])
    && NextVirt(h.sections, sectionAlignment) + Align(Needed(|prePE|, fs, |payload|), fileAlignment) < DWORD_LIMIT
  }

  /** Write and read back any number of times, each time with another import list: the image is unchanged,
    * given only that the first header written points right; what is read back then moves the offset of
    * left-over data behind the section, so that the later ones do.
    */
  method Cycles(h: Headers, prePE: seq<byte>, payload: seq<byte>, nExtraOffset: nat, sizeOfHeaders: nat,
                fileAlignment: nat, sectionAlignment: nat, lists: nat -> seq<ImportFile>, times: nat)
    returns (ok: bool, h': Headers, prePE': seq<byte>, payload': seq<byte>)
    requires fileAlignment > 0 && sectionAlignment > 0 && Plain(h) && SmallHeaders(h) && |h.sections| < MAX_SECTIONS
    requires prePE != [] && |prePE| % 8 == 0
    requires PointsRight(h.sections, sizeOfHeaders, nExtraOffset, fileAlignment)
    requires forall k: nat | k < times :: Writes(lists(k), h, prePE, payload, fileAlignment, sectionAlignment)
    ensures ok && h' == h && prePE' == prePE && payload' == payload
  {
    hide IsMultiple, SmallHeaders, Inserted, Restored, EndsInDetour, DecodeHeader, DataOffset, Plain, ShowsImports, PointsRight, NextFile,
         NextVirt, Needed, Align, AllWritable, AnyChanged;
    var extra := nExtraOffset;
    h', prePE', payload' := h, prePE, payload;
    var k := 0;
    while k < times
      invariant h' == h && prePE' == prePE && payload' == payload
      invariant PointsRight(h.sections, sizeOfHeaders, extra, fileAlignment)
    {
      var image := new CImage(h', prePE', extra, sizeOfHeaders, fileAlignment, sectionAlignment);
      assert Writes(lists(k), h, prePE, payload, fileAlignment, sectionAlignment);
      var w, c, had;
      ok, w, c := image.Write(lists(k), payload', 0, false);
      ReadUndoesWrite(h, image.m_headers, w, c, sectionAlignment);
      OnlyLast(image.m_headers);
      h', prePE', payload', had, extra := ReadSection(image.m_headers, a => if a == w.fileAddr then w.raw else [], []);
      RightAgain(h, image.m_headers, w, sizeOfHeaders, fileAlignment);
      k := k + 1;
    }
    ok := true;
  }

  /** The offset that Read leaves is behind where the section begins. */
  lemma RightAgain(h: Headers, h': Headers, w: Written, sizeOfHeaders: nat, fileAlignment: nat)
    requires fileAlignment > 0 && h'.sections != [] && Last(h').PointerToRawData == w.fileAddr == NextFile(h.sections, sizeOfHeaders, fileAlignment)
    ensures PointsRight(h.sections, sizeOfHeaders, ReadMax(h'.sections), fileAlignment)
  {}

  lemma OnlyLast(h: Headers)
    requires EndsInDetour(h)
    ensures h.sections != [] && forall s | s in h.sections && s.Name == DETOUR_NAME :: s == Last(h)
  {}

  /** DetourFindPayload in the loaded image: the section is found by its name, and the walk over its
    * payloads gives what the store held when the image was written.
    */
  method FindPayloadInModule(hs: Headers, memory: nat -> seq<byte>, rguid: seq<byte>, ghost h: Headers, ghost w: Written, ghost c: Contents,
                             ghost sectionAlignment: nat, ghost rs: seq<Record>)
    returns (found: bool, pb: nat, cbData: nat)
    requires sectionAlignment > 0 && Inserted(h, hs, w, c, sectionAlignment) && Plain(h) && c.prePE != []
    requires AllProper(rs) && Unique(rs) && c.data == Layout(rs)
    requires Last(hs).VirtualAddress != 0 && memory(Last(hs).VirtualAddress) == w.raw
    ensures found <==> rguid in PayloadLayout.Contents(rs)
    ensures found ==> pb + cbData <= |w.raw| && w.raw[pb..pb + cbData] == PayloadLayout.Contents(rs)[rguid]
  {
    hide Inserted, DecodeHeader, Unique, AllProper, Layout, PayloadLayout.Contents;
    ReadUndoesWrite(h, hs, w, c, sectionAlignment);
    SectionFields(h, hs, w, c, sectionAlignment);
    found, pb, cbData := false, 0, 0;
    var n := 0;
    while n < |hs.sections|
      invariant n < |hs.sections|
    {
      if hs.sections[n].Name == DETOUR_NAME {
        if hs.sections[n].VirtualAddress == 0 || hs.sections[n].SizeOfRawData == 0 {
          break;
        }
        var raw := memory(hs.sections[n].VirtualAddress);
        var dh := DecodeHeader(raw);
        if dh.cbHeaderSize < SIZEOF_HEADER || dh.nSignature != DETOUR_SECTION_HEADER_SIGNATURE {
          break;
        }
        if dh.nDataOffset == 0 {
          dh := dh.(nDataOffset := dh.cbHeaderSize);
        }
        found, pb, cbData := PayloadStore.FindPayload(raw, dh.nDataOffset, dh.cbDataSize, rguid, rs);
        return;
      }
      n := n + 1;
    }
  }

  lemma SectionFields(h: Headers, h': Headers, w: Written, c: Contents, sectionAlignment: nat)
    requires sectionAlignment > 0 && Inserted(h, h', w, c, sectionAlignment)
    ensures |w.raw| >= SIZEOF_HEADER && DecodeHeader(w.raw) == w.dh && Last(h').SizeOfRawData != 0
    ensures w.dh.cbHeaderSize == SIZEOF_HEADER && w.dh.nSignature == DETOUR_SECTION_HEADER_SIGNATURE
  {
    HeldHeader(w.raw, w.dh);
  }
}
