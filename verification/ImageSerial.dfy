/** The import tables as bytes of the section, and what a loader finds that starts from the descriptors
  * and follows their addresses (detours/src/image.cpp:1776-1876).
  */
module ImageSerial {
  import opened PayloadLayout
  import opened ImageImports
  import opened ImageTables
  import opened ImageEmit
  import opened ImageOutput
  import opened ImageSection

  const QWORD_LIMIT := DWORD_LIMIT * DWORD_LIMIT

  // ------------------------------------------------------------------- Tables as bytes

  function Low(x: nat): (r: nat)
    ensures r < DWORD_LIMIT
  {
    x % DWORD_LIMIT
  }

  /** IMAGE_THUNK_DATA of a 64-bit binary. */
  function Qword(x: nat): (s: seq<byte>)
    ensures |s| == SIZEOF_THUNK
  {
    Dword(Low(x)) + Dword(Low(x / DWORD_LIMIT))
  }

  function Qwords(xs: seq<nat>): (s: seq<byte>)
    ensures |s| == SIZEOF_THUNK * |xs|
  {
    if xs == [] then [] else Qword(xs[0]) + Qwords(xs[1..])
  }

  function DescriptorBytes(d: Descriptor): (s: seq<byte>)
    ensures |s| == SIZEOF_DESCRIPTOR
  {
    Dword(Low(d.OriginalFirstThunk)) + Dword(Low(d.TimeDateStamp)) + Dword(Low(d.ForwarderChain)) + Dword(Low(d.Name)) + Dword(Low(d.FirstThunk))
  }

  function DescriptorsBytes(ds: seq<Descriptor>): (s: seq<byte>)
    ensures |s| == SIZEOF_DESCRIPTOR * |ds|
  {
    if ds == [] then [] else DescriptorBytes(ds[0]) + DescriptorsBytes(ds[1..])
  }

  // -------------------------------------------------------------------- What is read

  function QwordAt(s: seq<byte>, o: nat): nat
    requires o + SIZEOF_THUNK <= |s|
  {
    DwordAt(s, o) + DWORD_LIMIT * DwordAt(s, o + 4)
  }

  function DescriptorAt(s: seq<byte>, o: nat): Descriptor
    requires o + SIZEOF_DESCRIPTOR <= |s|
  {
    Descriptor(DwordAt(s, o), DwordAt(s, o + 4), DwordAt(s, o + 8), DwordAt(s, o + 12), DwordAt(s, o + 16))
  }

  /** Bytes of the section, found at an offset. */
  predicate Found(s: seq<byte>, o: nat, bytes: seq<byte>) { Holds(s, o, bytes) }

  lemma FoundParts(s: seq<byte>, o: nat, a: seq<byte>, b: seq<byte>)
    requires Found(s, o, a + b)
    ensures Found(s, o, a) && Found(s, o + |a|, b)
  {
    assert s[o..o + |a|] == (a + b)[..|a|] == a;
    assert s[o + |a|..o + |a| + |b|] == (a + b)[|a|..] == b;
  }

  lemma DwordFound(s: seq<byte>, o: nat, x: nat)
    requires x < DWORD_LIMIT && Found(s, o, Dword(x))
    ensures o + 4 <= |s| && DwordAt(s, o) == x
  {
    DwordRoundTrip(x);
  }

  lemma QwordFound(s: seq<byte>, o: nat, x: nat)
    requires Found(s, o, Qword(x)) && x < QWORD_LIMIT
    ensures o + SIZEOF_THUNK <= |s| && QwordAt(s, o) == x
  {
    FoundParts(s, o, Dword(Low(x)), Dword(Low(x / DWORD_LIMIT)));
    hide Found, Dword, DwordAt;
    DwordFound(s, o, Low(x));
    DwordFound(s, o + 4, Low(x / DWORD_LIMIT));
  }

  lemma {:induction false} QwordsFound(s: seq<byte>, o: nat, xs: seq<nat>, k: nat)
    requires Found(s, o, Qwords(xs)) && k < |xs| && xs[k] < QWORD_LIMIT
    ensures o + SIZEOF_THUNK * k + SIZEOF_THUNK <= |s| && QwordAt(s, o + SIZEOF_THUNK * k) == xs[k]
    decreases k
  {
    hide Found, Qword, QwordAt;
    FoundParts(s, o, Qword(xs[0]), Qwords(xs[1..]));
    if k == 0 {
      QwordFound(s, o, xs[0]);
    } else {
      QwordsFound(s, o + SIZEOF_THUNK, xs[1..], k - 1);
    }
  }

  predicate SmallDescriptor(d: Descriptor) {
    && d.OriginalFirstThunk < DWORD_LIMIT && d.TimeDateStamp < DWORD_LIMIT && d.ForwarderChain < DWORD_LIMIT && d.Name < DWORD_LIMIT
    && d.FirstThunk < DWORD_LIMIT
  }

  lemma DescriptorFound(s: seq<byte>, o: nat, d: Descriptor)
    requires Found(s, o, DescriptorBytes(d)) && SmallDescriptor(d)
    ensures o + SIZEOF_DESCRIPTOR <= |s| && DescriptorAt(s, o) == d
  {
    hide Found, Dword, DwordAt;
    var a, b, c, e, f := Dword(Low(d.OriginalFirstThunk)), Dword(Low(d.TimeDateStamp)), Dword(Low(d.ForwarderChain)), Dword(Low(d.Name)),
      Dword(Low(d.FirstThunk));
    FoundParts(s, o, a + b + c + e, f);
    FoundParts(s, o, a + b + c, e);
    FoundParts(s, o, a + b, c);
    FoundParts(s, o, a, b);
    DwordFound(s, o, d.OriginalFirstThunk);
    DwordFound(s, o + 4, d.TimeDateStamp);
    DwordFound(s, o + 8, d.ForwarderChain);
    DwordFound(s, o + 12, d.Name);
    DwordFound(s, o + 16, d.FirstThunk);
  }

  lemma {:induction false} DescriptorsFound(s: seq<byte>, o: nat, ds: seq<Descriptor>, k: nat)
    requires Found(s, o, DescriptorsBytes(ds)) && k < |ds| && SmallDescriptor(ds[k])
    ensures o + SIZEOF_DESCRIPTOR * k + SIZEOF_DESCRIPTOR <= |s| && DescriptorAt(s, o + SIZEOF_DESCRIPTOR * k) == ds[k]
    decreases k
  {
    hide Found, DescriptorBytes, DescriptorAt;
    FoundParts(s, o, DescriptorBytes(ds[0]), DescriptorsBytes(ds[1..]));
    if k == 0 {
      DescriptorFound(s, o, ds[0]);
    } else {
      DescriptorsFound(s, o + SIZEOF_DESCRIPTOR, ds[1..], k - 1);
    }
  }

  lemma StringFound(s: seq<byte>, o: nat, chars: seq<byte>, at: nat, text: seq<byte>)
    requires Found(s, o, chars) && HoldsString(chars, at, text)
    ensures HoldsString(s, o + at, text)
  {
    assert forall k | 0 <= k < |chars| :: s[o + k] == s[o..o + |chars|][k] == chars[k];
    forall k | 0 <= k < |text|
      ensures s[o + at..o + at + |text|][k] == text[k]
    {
      assert text[k] == chars[at..at + |text|][k] == chars[at + k];
      assert s[o + (at + k)] == chars[at + k];
    }
  }

  // --------------------------------------------------------------- What a loader sees

  /** A thunk that a loader reads imports the name. */
  predicate ShowsName(s: seq<byte>, va: nat, thunk: nat, n: ImportName) {
    match n.m_pszName
    case None => thunk == 0x8000_0000_0000_0000 + n.m_nOrdinal
    case Some(text) =>
      va <= thunk && HoldsString(s, thunk - va + 2, text)
      && var lo: int, hi: int := s[thunk - va], s[thunk - va + 1]; lo + 0x100 * hi == n.m_nHint
  }

  /** Thunks at an address import the names and end with a zero. */
  predicate ShowsThunks(s: seq<byte>, va: nat, rva: nat, ns: seq<ImportName>) {
    va <= rva && rva - va + SIZEOF_THUNK * (|ns| + 1) <= |s|
    && (forall j | 0 <= j < |ns| :: ShowsName(s, va, QwordAt(s, rva - va + SIZEOF_THUNK * j), ns[j]))
    && QwordAt(s, rva - va + SIZEOF_THUNK * |ns|) == 0
  }

  /** Thunks at an address import ordinal 1 alone. */
  predicate ShowsByway(s: seq<byte>, va: nat, rva: nat) {
    va <= rva && rva - va + 2 * SIZEOF_THUNK <= |s| && QwordAt(s, rva - va) == 0x8000_0000_0000_0001 && QwordAt(s, rva - va + SIZEOF_THUNK) == 0
  }

  /** Of a section loaded at `va`, the descriptor at an offset stands for the file: by the addresses in it
    * a loader finds the file's name and its imports. `shown` is false for a list with a single thunk.
    */
  predicate Shows(s: seq<byte>, va: nat, o: nat, f: ImportFile, shown: bool) {
    o + SIZEOF_DESCRIPTOR <= |s|
    && var d := DescriptorAt(s, o);
    && va <= d.Name && HoldsString(s, d.Name - va, f.m_pszName) && d.TimeDateStamp == 0 && d.ForwarderChain == f.m_nForwarderChain
    && if f.m_fByway then ShowsByway(s, va, d.OriginalFirstThunk) && ShowsByway(s, va, d.FirstThunk)
       else d.FirstThunk == f.m_rvaFirstThunk && if shown then ShowsThunks(s, va, d.OriginalFirstThunk, f.m_pImportNames) else d.OriginalFirstThunk == 0
  }

  /** The whole import table: a descriptor for each file, and zeros. */
  predicate ShowsImports(s: seq<byte>, va: nat, o: nat, fs: seq<ImportFile>) {
    && o + SIZEOF_DESCRIPTOR * (|fs| + 1) <= |s|
    && (forall i | 0 <= i < |fs| :: Shows(s, va, o + SIZEOF_DESCRIPTOR * i, fs[i], Thunks(fs) > 1))
    && DescriptorAt(s, o + SIZEOF_DESCRIPTOR * |fs|) == Descriptor(0, 0, 0, 0, 0)
  }

  // -------------------------------------------------------- The tables are what is seen

  /** The tables lie in the section, at the addresses their entries were computed with. */
  predicate Laid(s: seq<byte>, va: nat, p: Parts, t: Tables, pad: seq<nat>) {
    && Found(s, p.lookup, Qwords(t.lookup)) && Found(s, p.bound, Qwords(t.bound + pad)) && Found(s, p.names, t.chars)
    && t.rvaLookup == va + p.lookup && t.rvaBound == va + p.bound && t.rvaNames == va + p.names
    && va + |s| <= DWORD_LIMIT
  }

  /** The fields of a file are DWORDs. */
  predicate Storable(f: ImportFile) {
    f.m_nForwarderChain < DWORD_LIMIT && f.m_rvaFirstThunk < DWORD_LIMIT && forall n | n in f.m_pImportNames :: n.m_nOrdinal < DWORD_LIMIT
  }

  lemma NameShown(s: seq<byte>, va: nat, o: nat, t: Tables, n: ImportName, thunk: nat)
    requires Found(s, o, t.chars) && t.rvaNames == va + o && va + |s| <= DWORD_LIMIT && n.m_nOrdinal < DWORD_LIMIT && ThunkOf(n, thunk, t)
    ensures ShowsName(s, va, thunk, n) && thunk < QWORD_LIMIT
  {
    if n.m_pszName.Some? {
      var at := thunk - t.rvaNames;
      StringFound(s, o, t.chars, at + 2, n.m_pszName.value);
      assert s[o..o + |t.chars|][at] == s[o + at] && s[o..o + |t.chars|][at + 1] == s[o + at + 1];
    }
  }

  lemma ThunksShown(s: seq<byte>, va: nat, p: Parts, t: Tables, pad: seq<nat>, ns: seq<ImportName>, k: nat)
    requires Laid(s, va, p, t, pad) && ThunksOf(ns, k, t) && k + |ns| < |t.lookup| && t.lookup[k + |ns|] == 0
    requires forall n | n in ns :: n.m_nOrdinal < DWORD_LIMIT
    ensures ShowsThunks(s, va, t.rvaLookup + SIZEOF_THUNK * k, ns)
  {
    hide Found, ThunkOf, ShowsName, Qwords, QwordAt;
    QwordsFound(s, p.lookup, t.lookup, k + |ns|);
    forall j | 0 <= j < |ns|
      ensures ShowsName(s, va, QwordAt(s, p.lookup + SIZEOF_THUNK * (k + j)), ns[j])
    {
      NameShown(s, va, p.names, t, ns[j], t.lookup[k + j]);
      QwordsFound(s, p.lookup, t.lookup, k + j);
    }
    var at := t.rvaLookup + SIZEOF_THUNK * k - va;
    assert forall j | 0 <= j < |ns| :: p.lookup + SIZEOF_THUNK * (k + j) == at + SIZEOF_THUNK * j;
  }

  lemma BywayShown(s: seq<byte>, va: nat, o: nat, xs: seq<nat>, k: nat)
    requires Found(s, o, Qwords(xs)) && k + 2 <= |xs| && xs[k] == IMAGE_ORDINAL_FLAG + 1 && xs[k + 1] == 0
    ensures ShowsByway(s, va, va + o + SIZEOF_THUNK * k)
  {
    hide Found, Qwords, QwordAt;
    QwordsFound(s, o, xs, k);
    QwordsFound(s, o, xs, k + 1);
  }

  lemma LookupRoom(s: seq<byte>, va: nat, o: nat, xs: seq<nat>, k: nat)
    requires Found(s, o, Qwords(xs)) && k < |xs| && va + |s| <= DWORD_LIMIT
    ensures va + o + SIZEOF_THUNK * k < DWORD_LIMIT
  {}

  lemma FileShown(s: seq<byte>, va: nat, p: Parts, t: Tables, pad: seq<nat>, f: ImportFile, d: Descriptor, k: nat, b: nat, o: nat, shown: bool)
    requires Laid(s, va, p, t, pad) && Storable(f) && DescriptorOf(f, d, k, b, t, shown) && Found(s, o, DescriptorBytes(d))
    ensures Shows(s, va, o, f, shown)
  {
    hide Found, ThunksOf, Qwords, DescriptorBytes, DescriptorAt, ShowsThunks, ShowsByway, HoldsString;
    NameRoom(s, p.names, t.chars, d.Name - t.rvaNames, f.m_pszName);
    LookupRoom(s, va, p.lookup, t.lookup, k);
    if f.m_fByway {
      BoundPadded(t.bound, pad, b);
      LookupRoom(s, va, p.bound, t.bound + pad, b);
      BywayShown(s, va, p.lookup, t.lookup, k);
      BywayShown(s, va, p.bound, t.bound + pad, b);
    } else {
      ThunksShown(s, va, p, t, pad, f.m_pImportNames, k);
    }
    DescriptorFound(s, o, d);
  }

  lemma BoundPadded(bound: seq<nat>, pad: seq<nat>, b: nat)
    requires b + 2 <= |bound|
    ensures b + 2 <= |bound + pad| && (bound + pad)[b] == bound[b] && (bound + pad)[b + 1] == bound[b + 1]
  {}

  lemma NameRoom(s: seq<byte>, o: nat, chars: seq<byte>, at: nat, text: seq<byte>)
    requires Found(s, o, chars) && HoldsString(chars, at, text)
    ensures o + at < |s| && HoldsString(s, o + at, text)
  {
    StringFound(s, o, chars, at, text);
  }

  lemma {:induction false} OneDescriptor(s: seq<byte>, o: nat, ds: seq<Descriptor>, k: nat)
    requires Found(s, o, DescriptorsBytes(ds)) && k < |ds|
    ensures Found(s, o + SIZEOF_DESCRIPTOR * k, DescriptorBytes(ds[k]))
    decreases k
  {
    hide Found, DescriptorBytes;
    FoundParts(s, o, DescriptorBytes(ds[0]), DescriptorsBytes(ds[1..]));
    if k > 0 { OneDescriptor(s, o + SIZEOF_DESCRIPTOR, ds[1..], k - 1); }
  }

  /** Tables that describe the import list and lie in the section show it to a loader. */
  lemma ImportsShown(s: seq<byte>, va: nat, p: Parts, t: Tables, pad: seq<nat>, fs: seq<ImportFile>, ds: seq<Descriptor>)
    requires Laid(s, va, p, t, pad) && (forall f | f in fs :: Storable(f)) && Describes(fs, ds, t, Thunks(fs) > 1)
    requires Found(s, p.imports, DescriptorsBytes(ds + [ZERO_DESCRIPTOR]))
    ensures ShowsImports(s, va, p.imports, fs)
  {
    hide Found, Laid, Storable, DescriptorOf, DescriptorBytes, DescriptorAt, Shows, DescriptorsBytes;
    var all := ds + [ZERO_DESCRIPTOR];
    forall i | 0 <= i < |fs|
      ensures Shows(s, va, p.imports + SIZEOF_DESCRIPTOR * i, fs[i], Thunks(fs) > 1)
    {
      OneDescriptor(s, p.imports, all, i);
      assert all[i] == ds[i];
      FileShown(s, va, p, t, pad, fs[i], ds[i], Thunks(fs[..i]), Bounds(fs[..i]), p.imports + SIZEOF_DESCRIPTOR * i, Thunks(fs) > 1);
    }
    DescriptorsFound(s, p.imports, all, |fs|);
  }

  // ------------------------------------------------------------- Emitting into a section

  /** Where the parts of a section begin, by their sizes. */
  function PartsFor(cbPrePE: nat, nThunks: nat, nChars: nat, cbData: nat): Parts {
    var lookup := SIZEOF_HEADER + QuadAlign(cbPrePE);
    var bound := lookup + QuadAlign(SIZEOF_THUNK * nThunks);
    var names := bound + QuadAlign(SIZEOF_THUNK * nThunks);
    var data := names + QuadAlign(nChars);
    Parts(SIZEOF_HEADER, lookup, bound, names, data, data + QuadAlign(cbData))
  }

  /** The sizes are those of the counting pass. */
  predicate Counted(c: Contents, fs: seq<ImportFile>) {
    && |c.lookup| == |c.bound| == SIZEOF_THUNK * Thunks(fs) && |c.names| == Chars(fs)
    && |c.imports| == SIZEOF_DESCRIPTOR * (|fs| + 1)
  }

  /** The tables of a section at `va`, whatever else is in it, as they show the import list. */
  ghost predicate Emitted(c: Contents, fs: seq<ImportFile>, va: nat) {
    Counted(c, fs)
    && exists t: Tables, ds: seq<Descriptor>, pad: seq<nat> :: EmittedAs(c, fs, va, t, ds, pad)
  }

  predicate EmittedAs(c: Contents, fs: seq<ImportFile>, va: nat, t: Tables, ds: seq<Descriptor>, pad: seq<nat>) {
    var p := PartsFor(|c.prePE|, Thunks(fs), Chars(fs), |c.data|);
    && Describes(fs, ds, t, Thunks(fs) > 1)
    && c.lookup == Qwords(t.lookup) && c.bound == Qwords(t.bound + pad) && c.names == t.chars
    && c.imports == DescriptorsBytes(ds + [ZERO_DESCRIPTOR])
    && t.rvaLookup == va + p.lookup && t.rvaBound == va + p.bound && t.rvaNames == va + p.names
  }

  lemma PartsAre(p: Parts, c: Contents, fs: seq<ImportFile>, end: nat)
    requires InOrder(p, c, end) && Counted(c, fs)
    ensures p == PartsFor(|c.prePE|, Thunks(fs), Chars(fs), |c.data|)
  {}

  /** A section with emitted tables, loaded where they were emitted for, shows the import list. */
  lemma SectionShows(raw: seq<byte>, h: DetourHeader, p: Parts, c: Contents, end: nat, fs: seq<ImportFile>, va: nat)
    requires IsSection(raw, h, p, c) && InOrder(p, c, end) && Emitted(c, fs, va) && va + |raw| <= DWORD_LIMIT
    requires forall f | f in fs :: Storable(f)
    ensures ShowsImports(raw, va, p.imports, fs)
  {
    hide Describes, Holds, QuadAlign, Storable, Small, HoldsData, Qwords, DescriptorsBytes;
    PartsAre(p, c, fs, end);
    var t, ds, pad :| EmittedAs(c, fs, va, t, ds, pad);
    ImportsShown(raw, va, p, t, pad, fs, ds);
  }

  /** The three tables with the room that was counted, at the addresses of their parts. */
  method NewTables(p: Parts, va: nat, nThunks: nat, nChars: nat) returns (out: Output)
    ensures fresh(out.Repr) && out.Valid()
    ensures out.lookupTable.m_nThunks == 0 && out.lookupTable.m_nThunksMax == nThunks && out.lookupTable.rva == va + p.lookup
    ensures out.boundTable.m_nThunks == 0 && out.boundTable.m_nThunksMax == nThunks && out.boundTable.rva == va + p.bound
    ensures out.nameTable.m_nChars == 0 && out.nameTable.m_nCharsMax == nChars && out.nameTable.rva == va + p.names
  {
    var pLookup, pBound, pNames := new nat[nThunks](_ => 0), new nat[nThunks](_ => 0), new byte[nChars](_ => 0);
    var lookupTable := new CImageThunks(pLookup, nThunks, va + p.lookup);
    var boundTable := new CImageThunks(pBound, nThunks, va + p.bound);
    var nameTable := new CImageChars(pNames, nChars, va + p.names);
    out := new Output(lookupTable, boundTable, nameTable);
  }

  /** What the tables hold once they are full; the bound table has room left unless all files are byways. */
  lemma FullTables(out: Output, nThunks: nat, nChars: nat)
    requires out.Valid() && out.lookupTable.m_nThunks == out.lookupTable.m_nThunksMax && out.nameTable.m_nChars == out.nameTable.m_nCharsMax
    ensures out.lookupTable.m_pThunks[..] == out.Now().lookup && out.nameTable.m_pChars[..] == out.Now().chars
    ensures out.boundTable.m_pThunks[..] == out.Now().bound + out.boundTable.m_pThunks[out.boundTable.m_nThunks..]
  {}

  /** The tables of an import list for a section at `va`, with the room the counting pass asks for. */
  method EmitTables(m_pImportFiles: seq<ImportFile>, prePE: seq<byte>, data: seq<byte>, va: nat, nTables: nat, nThunks: nat, nChars: nat)
    returns (c: Contents)
    requires AllWritable(m_pImportFiles)
    requires nTables == |m_pImportFiles| + 1 && nThunks == Thunks(m_pImportFiles) && nChars == Chars(m_pImportFiles)
    ensures c.prePE == prePE && c.data == data && Emitted(c, m_pImportFiles, va)
  {
    hide QuadAlign, Describes, AllWritable, Qwords, DescriptorsBytes;
    var p := PartsFor(|prePE|, nThunks, nChars, |data|);
    var out := NewTables(p, va, nThunks, nChars);
    var piidDst := new Descriptor[nTables](_ => ZERO_DESCRIPTOR);
    out.EmitImports(m_pImportFiles, piidDst);
    FullTables(out, nThunks, nChars);
    var lookup, bound, names, all := out.lookupTable.m_pThunks[..], out.boundTable.m_pThunks[..], out.nameTable.m_pChars[..], piidDst[..];
    c := Contents(prePE, Qwords(lookup), Qwords(bound), names, data, DescriptorsBytes(all));
    ghost var ds, pad := piidDst[..|m_pImportFiles|], out.boundTable.m_pThunks[out.boundTable.m_nThunks..];
    assert all == ds + [ZERO_DESCRIPTOR];
    assert EmittedAs(c, m_pImportFiles, va, out.Now(), ds, pad);
  }
}
