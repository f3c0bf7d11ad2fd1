/** The import lists of a binary being edited, and what the two passes over them agree on: the pass
  * that counts (detours/src/image.cpp:1344-1394) and the pass that emits
  * (detours/src/image.cpp:616-729, 1824-1876). Sizes are those of a 64-bit binary.
  */
module ImageImports {
  import opened PayloadLayout

  const SIZEOF_THUNK := 8
  const SIZEOF_DESCRIPTOR := 20
  const IMAGE_ORDINAL_FLAG := 0x8000_0000_0000_0000

  /** A C string without its terminator. */
  predicate IsString(s: seq<byte>) { 0 !in s }

  /** CImageImportName; names are None for a NULL pointer. */
  datatype ImportName = ImportName(m_nHint: nat, m_nOrdinal: nat, m_pszOrig: Option<seq<byte>>, m_pszName: Option<seq<byte>>)

  /** CImageImportFile. */
  datatype ImportFile = ImportFile(
    m_fByway: bool, m_pImportNames: seq<ImportName>, m_rvaFirstThunk: nat, m_nForwarderChain: nat,
    m_pszOrig: Option<seq<byte>>, m_pszName: seq<byte>)

  predicate Writable(f: ImportFile) {
    && IsString(f.m_pszName)
    && forall n | n in f.m_pImportNames :: n.m_nHint < 0x1_0000 && (n.m_pszName.Some? ==> IsString(n.m_pszName.value))
  }

  predicate AllWritable(fs: seq<ImportFile>) { forall f | f in fs :: Writable(f) }

  // ---------------------------------------------------------------------- Counts

  function Even(n: nat): (r: nat)
    ensures n <= r <= n + 1 && r % 2 == 0
  {
    n + n % 2
  }

  /** Bytes of the name table an imported name takes, with its hint. */
  function NameChars(n: ImportName): nat {
    match n.m_pszName case Some(s) => Even(|s| + 3) case None => 0
  }

  function NamesChars(ns: seq<ImportName>): nat { if ns == [] then 0 else NameChars(ns[0]) + NamesChars(ns[1..]) }

  function FileChars(f: ImportFile): nat {
    Even(|f.m_pszName| + 1) + if f.m_fByway then 0 else NamesChars(f.m_pImportNames)
  }

  function FileThunks(f: ImportFile): nat { if f.m_fByway then 2 else |f.m_pImportNames| + 1 }

  function Chars(fs: seq<ImportFile>): nat { if fs == [] then 0 else FileChars(fs[0]) + Chars(fs[1..]) }

  function Thunks(fs: seq<ImportFile>): nat { if fs == [] then 0 else FileThunks(fs[0]) + Thunks(fs[1..]) }

  predicate NamesChanged(ns: seq<ImportName>) {
    ns != [] && (ns[0].m_pszName != ns[0].m_pszOrig || NamesChanged(ns[1..]))
  }

  /** A byway, or a name that was changed. */
  predicate FileChanged(f: ImportFile) {
    f.m_fByway || f.m_pszOrig != Some(f.m_pszName) || NamesChanged(f.m_pImportNames)
  }

  predicate AnyChanged(fs: seq<ImportFile>) { fs != [] && (FileChanged(fs[0]) || AnyChanged(fs[1..])) }

  lemma {:induction false} NamesChangedMeans(ns: seq<ImportName>)
    ensures NamesChanged(ns) <==> exists n | n in ns :: n.m_pszName != n.m_pszOrig
  {
    if ns != [] {
      NamesChangedMeans(ns[1..]);
    }
  }

  /** A new section is needed for the imports exactly when a file is a byway or some name differs. */
  lemma {:induction false} AnyChangedMeans(fs: seq<ImportFile>)
    ensures AnyChanged(fs) <==> exists f | f in fs ::
      f.m_fByway || f.m_pszOrig != Some(f.m_pszName) || exists n | n in f.m_pImportNames :: n.m_pszName != n.m_pszOrig
  {
    if fs != [] {
      NamesChangedMeans(fs[0].m_pImportNames);
      AnyChangedMeans(fs[1..]);
    }
  }

  lemma EvenStep(n: nat, k: nat)
    requires n % 2 == 0
    ensures n + k + (n + k) % 2 == n + Even(k) && (n + Even(k)) % 2 == 0
  {}

  /** CheckImportsNeeded. `strneq` tells two strings, or a string and NULL, apart. */
  method CheckImportsNeeded(m_pImportFiles: seq<ImportFile>) returns (need: bool, nTables: nat, nThunks: nat, nChars: nat)
    ensures nTables == |m_pImportFiles| + 1 && nThunks == Thunks(m_pImportFiles) && nChars == Chars(m_pImportFiles)
    ensures need <==> AnyChanged(m_pImportFiles)
  {
    hide Even;
    need, nTables, nThunks, nChars := false, 0, 0, 0;
    var files := m_pImportFiles;
    while files != []
      invariant nTables + |files| == |m_pImportFiles| && nThunks + Thunks(files) == Thunks(m_pImportFiles)
      invariant nChars + Chars(files) == Chars(m_pImportFiles) && nChars % 2 == 0
      invariant need || AnyChanged(files) <==> AnyChanged(m_pImportFiles)
      decreases |files|
    {
      var f := files[0];
      ghost var nThunks0, nChars0, need0 := nThunks, nChars, need;
      EvenStep(nChars, |f.m_pszName| + 1);
      nChars := nChars + |f.m_pszName| + 1;
      nChars := nChars + nChars % 2;
      if f.m_fByway {
        need := true;
        nThunks := nThunks + 1;
      } else {
        if !need && f.m_pszOrig != Some(f.m_pszName) {
          need := true;
        }
        var names := f.m_pImportNames;
        while names != []
          invariant nThunks + |names| == nThunks0 + |f.m_pImportNames|
          invariant nChars + NamesChars(names) == nChars0 + FileChars(f) && nChars % 2 == 0
          invariant need || NamesChanged(names) <==> need0 || FileChanged(f)
          decreases |names|
        {
          var n := names[0];
          if !need && n.m_pszName != n.m_pszOrig {
            need := true;
          }
          if n.m_pszName.Some? {
            EvenStep(nChars, |n.m_pszName.value| + 3);
            nChars := nChars + 2;
            nChars := nChars + |n.m_pszName.value| + 1;
            nChars := nChars + nChars % 2;
          }
          nThunks := nThunks + 1;
          names := names[1..];
        }
      }
      nThunks := nThunks + 1;
      nTables := nTables + 1;
      files := files[1..];
    }
    nTables := nTables + 1;
  }
}
