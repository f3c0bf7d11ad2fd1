/** Write's walk over the imports (detours/src/image.cpp:1824-1876). */
module ImageEmit {
  import opened PayloadLayout
  import opened ImageImports
  import opened ImageTables

  /** Where a hint and the string behind it lie once they have been added. */
  lemma HintHeld(c: seq<byte>, nHint: nat, s: seq<byte>)
    requires nHint < 0x1_0000
    ensures var t := c + HintBytes(nHint) + Terminated(s);
      HoldsString(t, |c| + 2, s) && t[|c|] == nHint % 0x100 && t[|c| + 1] == nHint / 0x100
  {
    var t := c + HintBytes(nHint) + Terminated(s);
    assert t[|c| + 2..] == Terminated(s);
    assert t[|c| + 2..|c| + 2 + |s|] == t[|c| + 2..][..|s|] == s;
    assert t[|c| + 2 + |s|] == Terminated(s)[|s|];
  }

  /** The three tables, in memory of their own. */
  class Output {
    const lookupTable: CImageThunks
    const boundTable: CImageThunks
    const nameTable: CImageChars

    ghost const Repr: set<object>

    ghost predicate Valid()
      reads Repr
    {
      && Repr == {lookupTable, lookupTable.m_pThunks, boundTable, boundTable.m_pThunks, nameTable, nameTable.m_pChars}
      && lookupTable != boundTable && lookupTable.m_pThunks != boundTable.m_pThunks
      && lookupTable.Valid() && boundTable.Valid() && nameTable.Valid()
    }

    ghost function Now(): Tables
      reads Repr
      requires Valid()
    {
      Tables(lookupTable.Done(), boundTable.Done(), nameTable.Done(), lookupTable.rva, boundTable.rva, nameTable.rva)
    }

    constructor (lookup: CImageThunks, bound: CImageThunks, names: CImageChars)
      requires lookup != bound && lookup.m_pThunks != bound.m_pThunks && lookup.Valid() && bound.Valid() && names.Valid()
      ensures Valid() && lookupTable == lookup && boundTable == bound && nameTable == names
      ensures Repr == {lookup, lookup.m_pThunks, bound, bound.m_pThunks, names, names.m_pChars}
    {
      lookupTable, boundTable, nameTable := lookup, bound, names;
      Repr := {lookup, lookup.m_pThunks, bound, bound.m_pThunks, names, names.m_pChars};
    }

    method AddThunk(nData: nat) returns (ok: bool, rva: nat)
      requires Valid() && lookupTable.m_nThunks < lookupTable.m_nThunksMax
      modifies lookupTable, lookupTable.m_pThunks
      ensures Valid() && ok && Now() == old(Now()).(lookup := old(Now()).lookup + [nData])
      ensures rva == lookupTable.rva + SIZEOF_THUNK * old(lookupTable.m_nThunks) && lookupTable.m_nThunks == old(lookupTable.m_nThunks) + 1
      ensures Extends(old(Now()), Now())
    {
      ok, rva := lookupTable.Allocate(nData);
    }

    method AddBound(nData: nat) returns (ok: bool, rva: nat)
      requires Valid() && boundTable.m_nThunks < boundTable.m_nThunksMax
      modifies boundTable, boundTable.m_pThunks
      ensures Valid() && ok && Now() == old(Now()).(bound := old(Now()).bound + [nData])
      ensures rva == boundTable.rva + SIZEOF_THUNK * old(boundTable.m_nThunks) && boundTable.m_nThunks == old(boundTable.m_nThunks) + 1
      ensures Extends(old(Now()), Now())
    {
      ok, rva := boundTable.Allocate(nData);
    }

    method AddString(s: seq<byte>) returns (ok: bool, rva: nat)
      requires Valid() && nameTable.m_nChars + Even(|s| + 1) <= nameTable.m_nCharsMax
      modifies nameTable, nameTable.m_pChars
      ensures Valid() && ok && Now() == old(Now()).(chars := old(Now()).chars + Terminated(s))
      ensures rva == nameTable.rva + old(nameTable.m_nChars) && nameTable.m_nChars == old(nameTable.m_nChars) + Even(|s| + 1)
      ensures HoldsString(Now().chars, rva - nameTable.rva, s) && Extends(old(Now()), Now())
    {
      ok, rva := nameTable.Allocate(s);
      ghost var c := old(Now()).chars;
      assert (c + Terminated(s))[|c|..|c| + |s|] == s;
    }

    method AddName(n: ImportName) returns (ok: bool, rva: nat)
      requires Valid() && n.m_pszName.Some? && n.m_nHint < 0x1_0000
      requires nameTable.m_nChars + NameChars(n) <= nameTable.m_nCharsMax
      modifies nameTable, nameTable.m_pChars
      ensures Valid() && ok && Extends(old(Now()), Now()) && Now() == old(Now()).(chars := Now().chars)
      ensures nameTable.m_nChars == old(nameTable.m_nChars) + NameChars(n) && ThunkOf(n, rva, Now())
    {
      var s := n.m_pszName.value;
      ok, rva := nameTable.AllocateHint(s, n.m_nHint);
      HintHeld(old(Now()).chars, n.m_nHint, s);
    }

    /** The thunks of a file's imported names. */
    method EmitNames(ns: seq<ImportName>)
      requires Valid() && forall n | n in ns :: n.m_nHint < 0x1_0000
      requires lookupTable.m_nThunks + |ns| <= lookupTable.m_nThunksMax && nameTable.m_nChars + NamesChars(ns) <= nameTable.m_nCharsMax
      modifies lookupTable, lookupTable.m_pThunks, nameTable, nameTable.m_pChars
      ensures Valid() && Extends(old(Now()), Now()) && ThunksOf(ns, old(lookupTable.m_nThunks), Now())
      ensures Now().bound == old(Now()).bound
      ensures lookupTable.m_nThunks == old(lookupTable.m_nThunks) + |ns| && nameTable.m_nChars == old(nameTable.m_nChars) + NamesChars(ns)
    {
      hide ThunkOf, HoldsString, NameChars;
      var n := 0;
      while n < |ns|
        invariant n <= |ns| && Valid() && Extends(old(Now()), Now()) && Now().bound == old(Now()).bound
        invariant ThunksOf(ns[..n], old(lookupTable.m_nThunks), Now())
        invariant lookupTable.m_nThunks == old(lookupTable.m_nThunks) + n
        invariant nameTable.m_nChars + NamesChars(ns[n..]) == old(nameTable.m_nChars) + NamesChars(ns)
      {
        var pImportName := ns[n];
        ghost var t := Now();
        var rvaIgnored, ok;
        if pImportName.m_pszName.Some? {
          var nDstName;
          ok, nDstName := AddName(pImportName);
          ghost var t' := Now();
          ok, rvaIgnored := AddThunk(nDstName);
          ThunkKept(pImportName, nDstName, t', Now());
        } else {
          ok, rvaIgnored := AddThunk(IMAGE_ORDINAL_FLAG + pImportName.m_nOrdinal);
          OrdinalThunk(pImportName, Now());
        }
        ThunksKept(ns[..n], old(lookupTable.m_nThunks), t, Now());
        assert ns[..n + 1] == ns[..n] + [ns[n]] && ns[n..][1..] == ns[n + 1..];
        assert ThunksOf(ns[..n + 1], old(lookupTable.m_nThunks), Now());
        n := n + 1;
      }
    }

    /** One file: its name, its thunks and its descriptor. */
    method EmitFile(f: ImportFile) returns (d: Descriptor)
      requires Valid() && Writable(f)
      requires lookupTable.m_nThunks + FileThunks(f) <= lookupTable.m_nThunksMax && nameTable.m_nChars + FileChars(f) <= nameTable.m_nCharsMax
      requires boundTable.m_nThunks + FileBound(f) <= boundTable.m_nThunksMax
      modifies Repr
      ensures Valid() && Extends(old(Now()), Now())
      ensures DescriptorOf(f, d, old(lookupTable.m_nThunks), old(boundTable.m_nThunks), Now(), lookupTable.m_nThunksMax > 1)
      ensures lookupTable.m_nThunks == old(lookupTable.m_nThunks) + FileThunks(f)
      ensures boundTable.m_nThunks == old(boundTable.m_nThunks) + FileBound(f)
      ensures nameTable.m_nChars == old(nameTable.m_nChars) + FileChars(f)
    {
      hide HoldsString, ThunksOf, Even, Terminated, NamesChars, Extends, IsString, ThunkOf;
      var ok, rvaIgnored;
      var nName, nFirst, nOriginal;
      ok, nName := AddString(f.m_pszName);
      ghost var t := Now();
      if f.m_fByway {
        nOriginal, nFirst := EmitByway();
      } else {
        nFirst := f.m_rvaFirstThunk;
        nOriginal := lookupTable.Current();
        EmitNames(f.m_pImportNames);
        ghost var t' := Now();
        ok, rvaIgnored := AddThunk(0);
        ThunksKept(f.m_pImportNames, old(lookupTable.m_nThunks), t', Now());
        ExtendsTwice(t, t', Now());
      }
      StringStays(t, Now(), nName, f.m_pszName);
      ExtendsTwice(old(Now()), t, Now());
      d := Descriptor(nOriginal, 0, f.m_nForwarderChain, nName, nFirst);
    }

    /** A byway imports ordinal 1 of its file, in both thunk tables. */
    method EmitByway() returns (nOriginal: nat, nFirst: nat)
      requires Valid() && lookupTable.m_nThunks + 2 <= lookupTable.m_nThunksMax && boundTable.m_nThunks + 2 <= boundTable.m_nThunksMax
      modifies lookupTable, lookupTable.m_pThunks, boundTable, boundTable.m_pThunks
      ensures Valid() && Extends(old(Now()), Now())
      ensures Now() == old(Now()).(lookup := old(Now()).lookup + [IMAGE_ORDINAL_FLAG + 1, 0], bound := old(Now()).bound + [IMAGE_ORDINAL_FLAG + 1, 0])
      ensures nOriginal == lookupTable.rva + SIZEOF_THUNK * old(lookupTable.m_nThunks) && nFirst == boundTable.rva + SIZEOF_THUNK * old(boundTable.m_nThunks)
      ensures lookupTable.m_nThunks == old(lookupTable.m_nThunks) + 2 && boundTable.m_nThunks == old(boundTable.m_nThunks) + 2
    {
      var ok, rvaIgnored;
      ok, nOriginal := AddThunk(IMAGE_ORDINAL_FLAG + 1);
      ok, nFirst := AddBound(IMAGE_ORDINAL_FLAG + 1);
      ok, rvaIgnored := AddThunk(0);
      ok, rvaIgnored := AddBound(0);
    }

    /** Every file, and the descriptor of zeros that ends the table. */
    method EmitImports(m_pImportFiles: seq<ImportFile>, piidDst: array<Descriptor>)
      requires Valid() && AllWritable(m_pImportFiles) && piidDst !in Repr && piidDst.Length == |m_pImportFiles| + 1
      requires lookupTable.m_nThunks == 0 && lookupTable.m_nThunksMax == Thunks(m_pImportFiles)
      requires boundTable.m_nThunks == 0 && boundTable.m_nThunksMax == Thunks(m_pImportFiles)
      requires nameTable.m_nChars == 0 && nameTable.m_nCharsMax == Chars(m_pImportFiles)
      modifies Repr, piidDst
      ensures Valid()
      ensures lookupTable.m_nThunks == lookupTable.m_nThunksMax && nameTable.m_nChars == nameTable.m_nCharsMax
      ensures Describes(m_pImportFiles, piidDst[..|m_pImportFiles|], Now(), Thunks(m_pImportFiles) > 1)
      ensures piidDst[|m_pImportFiles|] == ZERO_DESCRIPTOR
    {
      hide DescriptorOf, Extends, FileThunks, FileBound, FileChars, Writable;
      var n := 0;
      BoundFits(m_pImportFiles);
      while n < |m_pImportFiles|
        invariant n <= |m_pImportFiles| && Valid()
        invariant Describes(m_pImportFiles[..n], piidDst[..n], Now(), Thunks(m_pImportFiles) > 1)
        invariant lookupTable.m_nThunks == Thunks(m_pImportFiles[..n]) && lookupTable.m_nThunks + Thunks(m_pImportFiles[n..]) == Thunks(m_pImportFiles)
        invariant nameTable.m_nChars + Chars(m_pImportFiles[n..]) == Chars(m_pImportFiles)
        invariant boundTable.m_nThunks == Bounds(m_pImportFiles[..n]) && boundTable.m_nThunks + Bounds(m_pImportFiles[n..]) == Bounds(m_pImportFiles)
      {
        ghost var t := Now();
        var f := m_pImportFiles[n];
        assert m_pImportFiles[n..][1..] == m_pImportFiles[n + 1..];
        var d := EmitFile(f);
        piidDst[n] := d;
        DescribesMore(m_pImportFiles[..n], piidDst[..n], f, d, t, Now(), Thunks(m_pImportFiles) > 1);
        assert m_pImportFiles[..n + 1] == m_pImportFiles[..n] + [f] && piidDst[..n + 1] == piidDst[..n] + [d];
        n := n + 1;
      }
      piidDst[n] := ZERO_DESCRIPTOR;
      assert m_pImportFiles[..n] == m_pImportFiles;
    }
  }

  function FileBound(f: ImportFile): nat { if f.m_fByway then 2 else 0 }

  /** Thunks the bound table gets: only byways put any there. */
  function Bounds(fs: seq<ImportFile>): nat { if fs == [] then 0 else FileBound(fs[0]) + Bounds(fs[1..]) }

  /** The bound table has as much room as the lookup table, which is enough. */
  lemma {:induction false} BoundFits(fs: seq<ImportFile>)
    ensures Bounds(fs) <= Thunks(fs)
  {
    if fs != [] {
      BoundFits(fs[1..]);
    }
  }

  lemma {:induction false} CountsAppend(fs: seq<ImportFile>, f: ImportFile)
    ensures Thunks(fs + [f]) == Thunks(fs) + FileThunks(f) && Bounds(fs + [f]) == Bounds(fs) + FileBound(f)
  {
    if fs == [] {
      assert [f][1..] == [] && fs + [f] == [f];
    } else {
      assert (fs + [f])[1..] == fs[1..] + [f];
      CountsAppend(fs[1..], f);
    }
  }

  /** Each descriptor stands for its file; a file's thunks come after those of the files before it. */
  predicate Describes(fs: seq<ImportFile>, ds: seq<Descriptor>, t: Tables, shown: bool) {
    |ds| == |fs| && forall i | 0 <= i < |fs| :: DescriptorOf(fs[i], ds[i], Thunks(fs[..i]), Bounds(fs[..i]), t, shown)
  }

  lemma DescribesMore(fs: seq<ImportFile>, ds: seq<Descriptor>, f: ImportFile, d: Descriptor, t: Tables, t': Tables, shown: bool)
    requires Describes(fs, ds, t, shown) && Extends(t, t')
    requires DescriptorOf(f, d, Thunks(fs), Bounds(fs), t', shown)
    ensures Describes(fs + [f], ds + [d], t', shown)
    ensures Thunks(fs + [f]) == Thunks(fs) + FileThunks(f) && Bounds(fs + [f]) == Bounds(fs) + FileBound(f)
  {
    hide DescriptorOf, Extends, FileThunks, FileBound;
    CountsAppend(fs, f);
    var gs, es := fs + [f], ds + [d];
    forall i | 0 <= i < |gs|
      ensures DescriptorOf(gs[i], es[i], Thunks(gs[..i]), Bounds(gs[..i]), t', shown)
    {
      if i < |fs| {
        assert gs[..i] == fs[..i];
        DescriptorKept(fs[i], ds[i], Thunks(fs[..i]), Bounds(fs[..i]), t, t', shown);
      } else {
        assert gs[..i] == fs;
      }
    }
  }

  lemma ExtendsTwice(t: Tables, t': Tables, t'': Tables)
    requires Extends(t, t') && Extends(t', t'')
    ensures Extends(t, t'')
  {}

  lemma StringStays(t: Tables, t': Tables, rva: nat, s: seq<byte>)
    requires t.rvaNames <= rva && HoldsString(t.chars, rva - t.rvaNames, s) && Extends(t, t')
    ensures HoldsString(t'.chars, rva - t.rvaNames, s)
  {
    StringKept(t.chars, t'.chars, rva - t.rvaNames, s);
  }

  lemma OrdinalThunk(n: ImportName, t: Tables)
    requires n.m_pszName.None?
    ensures ThunkOf(n, IMAGE_ORDINAL_FLAG + n.m_nOrdinal, t) && NameChars(n) == 0
  {}
}
