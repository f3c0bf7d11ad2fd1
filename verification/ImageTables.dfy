/** The pass that emits the import tables (detours/src/image.cpp:616-729, 1824-1876): with the room that
  * the counting pass asks for, every allocation succeeds and the tables describe the import list.
  */
module ImageTables {
  import opened PayloadLayout
  import opened ImageImports

  /** IMAGE_IMPORT_DESCRIPTOR. */
  datatype Descriptor = Descriptor(OriginalFirstThunk: nat, TimeDateStamp: nat, ForwarderChain: nat, Name: nat, FirstThunk: nat)

  const ZERO_DESCRIPTOR := Descriptor(0, 0, 0, 0, 0)

  // --------------------------------------------------------- What the tables mean

  /** The tables as filled so far, with the addresses they are loaded at. */
  datatype Tables = Tables(lookup: seq<nat>, bound: seq<nat>, chars: seq<byte>, rvaLookup: nat, rvaBound: nat, rvaNames: nat)

  predicate HoldsString(chars: seq<byte>, o: nat, s: seq<byte>) {
    o + |s| < |chars| && chars[o..o + |s|] == s && chars[o + |s|] == 0
  }

  /** A thunk stands for an imported name: its hint and name in the name table, or its ordinal. */
  predicate ThunkOf(n: ImportName, thunk: nat, t: Tables) {
    match n.m_pszName
    case None => thunk == IMAGE_ORDINAL_FLAG + n.m_nOrdinal
    case Some(s) =>
      t.rvaNames <= thunk && HoldsString(t.chars, thunk - t.rvaNames + 2, s)
      && var lo: int, hi: int := t.chars[thunk - t.rvaNames], t.chars[thunk - t.rvaNames + 1]; lo + 0x100 * hi == n.m_nHint
  }

  /** The thunks from `k` on stand for the names, in order. */
  predicate ThunksOf(ns: seq<ImportName>, k: nat, t: Tables) {
    k + |ns| <= |t.lookup| && forall j | 0 <= j < |ns| :: ThunkOf(ns[j], t.lookup[k + j], t)
  }

  /** A descriptor stands for a file whose thunks begin at `k` in the lookup table and, for a byway, at
    * `b` in the bound table. `shown` is false for the table of a single thunk, whose address the
    * source leaves out.
    */
  predicate DescriptorOf(f: ImportFile, d: Descriptor, k: nat, b: nat, t: Tables, shown: bool) {
    && t.rvaNames <= d.Name && HoldsString(t.chars, d.Name - t.rvaNames, f.m_pszName)
    && d.TimeDateStamp == 0 && d.ForwarderChain == f.m_nForwarderChain
    && if f.m_fByway then
         && k + 2 <= |t.lookup| && t.lookup[k] == IMAGE_ORDINAL_FLAG + 1 && t.lookup[k + 1] == 0
         && b + 2 <= |t.bound| && t.bound[b] == IMAGE_ORDINAL_FLAG + 1 && t.bound[b + 1] == 0
         && d.OriginalFirstThunk == t.rvaLookup + SIZEOF_THUNK * k && d.FirstThunk == t.rvaBound + SIZEOF_THUNK * b
       else
         && ThunksOf(f.m_pImportNames, k, t) && k + |f.m_pImportNames| < |t.lookup| && t.lookup[k + |f.m_pImportNames|] == 0
         && d.OriginalFirstThunk == (if shown then t.rvaLookup + SIZEOF_THUNK * k else 0) && d.FirstThunk == f.m_rvaFirstThunk
  }

  /** The tables have only grown. */
  predicate Extends(t: Tables, t': Tables) {
    && t.lookup <= t'.lookup && t.bound <= t'.bound && t.chars <= t'.chars
    && t'.rvaLookup == t.rvaLookup && t'.rvaBound == t.rvaBound && t'.rvaNames == t.rvaNames
  }

  lemma StringKept(c: seq<byte>, c': seq<byte>, o: nat, s: seq<byte>)
    requires HoldsString(c, o, s) && c <= c'
    ensures HoldsString(c', o, s)
  {
    assert c'[o..o + |s|] == c[o..o + |s|];
  }

  lemma ThunkKept(n: ImportName, thunk: nat, t: Tables, t': Tables)
    requires ThunkOf(n, thunk, t) && Extends(t, t')
    ensures ThunkOf(n, thunk, t')
  {
    if n.m_pszName.Some? {
      StringKept(t.chars, t'.chars, thunk - t.rvaNames + 2, n.m_pszName.value);
    }
  }

  lemma ThunksKept(ns: seq<ImportName>, k: nat, t: Tables, t': Tables)
    requires ThunksOf(ns, k, t) && Extends(t, t')
    ensures ThunksOf(ns, k, t')
  {
    hide ThunkOf;
    forall j | 0 <= j < |ns|
      ensures ThunkOf(ns[j], t'.lookup[k + j], t')
    {
      assert ThunkOf(ns[j], t.lookup[k + j], t);
      ThunkKept(ns[j], t.lookup[k + j], t, t');
    }
  }

  /** Tables that have only grown still describe what they did. */
  lemma DescriptorKept(f: ImportFile, d: Descriptor, k: nat, b: nat, t: Tables, t': Tables, shown: bool)
    requires DescriptorOf(f, d, k, b, t, shown) && Extends(t, t')
    ensures DescriptorOf(f, d, k, b, t', shown)
  {
    StringKept(t.chars, t'.chars, d.Name - t.rvaNames, f.m_pszName);
    if !f.m_fByway {
      ThunksKept(f.m_pImportNames, k, t, t');
    }
  }

  // ------------------------------------------------------------------ The tables

  class CImageThunks {
    const m_pThunks: array<nat>
    var m_nThunks: nat
    const m_nThunksMax: nat
    var m_nThunkVirtAddr: nat
    const rva: nat

    ghost predicate Valid() reads this {
      m_nThunksMax == m_pThunks.Length && m_nThunks <= m_nThunksMax && m_nThunkVirtAddr == rva + SIZEOF_THUNK * m_nThunks
    }

    ghost function Done(): seq<nat>
      reads this, m_pThunks
      requires Valid()
    {
      m_pThunks[..m_nThunks]
    }

    constructor (pThunks: array<nat>, nThunksMax: nat, rvaThunks: nat)
      requires pThunks.Length == nThunksMax
      ensures Valid() && m_nThunks == 0 && m_nThunksMax == nThunksMax && m_pThunks == pThunks && rva == rvaThunks
    {
      m_pThunks, m_nThunks, m_nThunksMax, m_nThunkVirtAddr, rva := pThunks, 0, nThunksMax, rvaThunks, rvaThunks;
    }

    method Current() returns (nVirtAddr: nat)
      requires Valid()
      ensures nVirtAddr == if m_nThunksMax > 1 then rva + SIZEOF_THUNK * m_nThunks else 0
    {
      return if m_nThunksMax > 1 then m_nThunkVirtAddr else 0;
    }

    method Allocate(nData: nat) returns (ok: bool, nVirtAddr: nat)
      requires Valid()
      modifies this, m_pThunks
      ensures Valid() && ok == (old(m_nThunks) < m_nThunksMax)
      ensures ok ==> nVirtAddr == rva + SIZEOF_THUNK * old(m_nThunks) && m_nThunks == old(m_nThunks) + 1 && Done() == old(Done()) + [nData]
      ensures !ok ==> nVirtAddr == 0 && m_nThunks == old(m_nThunks) && Done() == old(Done())
    {
      if m_nThunks < m_nThunksMax {
        nVirtAddr := m_nThunkVirtAddr;
        m_pThunks[m_nThunks] := nData;
        m_nThunks := m_nThunks + 1;
        m_nThunkVirtAddr := m_nThunkVirtAddr + SIZEOF_THUNK;
        return true, nVirtAddr;
      }
      return false, 0;
    }
  }

  /** A string with its terminator, padded to an even length. */
  function Terminated(s: seq<byte>): (r: seq<byte>)
    ensures |r| == Even(|s| + 1)
  {
    s + [0] + if |s| % 2 == 0 then [0] else []
  }

  function HintBytes(nHint: nat): seq<byte> { [nHint % 0x100, nHint / 0x100 % 0x100] }

  class CImageChars {
    const m_pChars: array<byte>
    var m_nChars: nat
    const m_nCharsMax: nat
    var m_nCharVirtAddr: nat
    const rva: nat

    /** The room that is left is still zero, as AllocateOutput returned it. */
    ghost predicate Valid() reads this, m_pChars {
      && m_nCharsMax == m_pChars.Length && m_nChars <= m_nCharsMax && m_nCharVirtAddr == rva + m_nChars
      && forall i | m_nChars <= i < m_nCharsMax :: m_pChars[i] == 0
    }

    ghost function Done(): seq<byte>
      reads this, m_pChars
      requires Valid()
    {
      m_pChars[..m_nChars]
    }

    constructor (pChars: array<byte>, nCharsMax: nat, rvaChars: nat)
      requires pChars.Length == nCharsMax && forall i | 0 <= i < nCharsMax :: pChars[i] == 0
      ensures Valid() && m_nChars == 0 && m_nCharsMax == nCharsMax && m_pChars == pChars && rva == rvaChars
    {
      m_pChars, m_nChars, m_nCharsMax, m_nCharVirtAddr, rva := pChars, 0, nCharsMax, rvaChars, rvaChars;
    }

    /** Writes bytes at the cursor and moves it past the zeros after them. */
    method Put(bytes: seq<byte>, nLen: nat)
      requires Valid() && |bytes| <= nLen && m_nChars + nLen <= m_nCharsMax
      modifies this, m_pChars
      ensures Valid() && m_nChars == old(m_nChars) + nLen && Done() == old(Done()) + bytes + Zeros(nLen - |bytes|)
    {
      forall i | 0 <= i < |bytes| {
        m_pChars[m_nChars + i] := bytes[i];
      }
      m_nChars := m_nChars + nLen;
      m_nCharVirtAddr := m_nCharVirtAddr + nLen;
      assert m_pChars[..m_nChars] == old(Done()) + bytes + Zeros(nLen - |bytes|);
    }

    method Allocate(pszString: seq<byte>) returns (ok: bool, nVirtAddr: nat)
      requires Valid()
      modifies this, m_pChars
      ensures Valid() && ok == (old(m_nChars) + Even(|pszString| + 1) <= m_nCharsMax)
      ensures ok ==> nVirtAddr == rva + old(m_nChars) && Done() == old(Done()) + Terminated(pszString) && m_nChars == old(m_nChars) + Even(|pszString| + 1)
      ensures !ok ==> nVirtAddr == 0 && m_nChars == old(m_nChars) && Done() == old(Done())
    {
      var nLen := |pszString| + 1;
      nLen := nLen + nLen % 2;
      if m_nChars + nLen > m_nCharsMax {
        return false, 0;
      }
      nVirtAddr := m_nCharVirtAddr;
      Put(pszString + [0], nLen);
      assert Terminated(pszString) == pszString + [0] + Zeros(nLen - |pszString| - 1);
      return true, nVirtAddr;
    }

    method AllocateHint(pszString: seq<byte>, nHint: nat) returns (ok: bool, nVirtAddr: nat)
      requires Valid() && nHint < 0x1_0000
      modifies this, m_pChars
      ensures Valid() && ok == (old(m_nChars) + Even(|pszString| + 3) <= m_nCharsMax)
      ensures ok ==> nVirtAddr == rva + old(m_nChars) && Done() == old(Done()) + HintBytes(nHint) + Terminated(pszString) && m_nChars == old(m_nChars) + Even(|pszString| + 3)
      ensures !ok ==> nVirtAddr == 0 && m_nChars == old(m_nChars) && Done() == old(Done())
    {
      var nLen := |pszString| + 1 + 2;
      nLen := nLen + nLen % 2;
      if m_nChars + nLen > m_nCharsMax {
        return false, 0;
      }
      nVirtAddr := m_nCharVirtAddr;
      Put(HintBytes(nHint) + pszString + [0], nLen);
      assert Terminated(pszString) == pszString + [0] + Zeros(nLen - |pszString| - 3);
      assert HintBytes(nHint) + pszString + [0] + Zeros(nLen - |pszString| - 3) == HintBytes(nHint) + Terminated(pszString);
      return true, nVirtAddr;
    }
  }
}
