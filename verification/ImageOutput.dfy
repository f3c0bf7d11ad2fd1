/** The output buffer in which Write builds the .detour section, and the file and virtual addresses
  * that grow with it (detours/src/image.cpp:857-922, 1004-1020, 1756-1811, 1878-1892).
  */
module ImageOutput {
  import opened PayloadLayout

  const SIZEOF_HEADER := 64

  // -------------------------------------------------------------------- Alignment

  predicate IsMultiple(a: nat, size: nat)
    requires size > 0
  {
    a == 0 || (a >= size && IsMultiple(a - size, size))
  }

  /** Align of the source, whose masks compute this for powers of two: the least multiple of `size`
    * that is not below `a`.
    */
  function Align(a: nat, size: nat): (r: nat)
    requires size > 0
    ensures a <= r < a + size && IsMultiple(r, size)
  {
    if a == 0 then 0 else if a <= size then size else size + Align(a - size, size)
  }

  lemma {:induction false} AlignLeast(a: nat, b: nat, size: nat)
    requires size > 0 && a <= b && IsMultiple(b, size)
    ensures Align(a, size) <= b
  {
    if a > size {
      AlignLeast(a - size, b - size, size);
    }
  }

  lemma {:induction false} MultiplesAdd(a: nat, b: nat, size: nat)
    requires size > 0 && IsMultiple(a, size) && IsMultiple(b, size)
    ensures IsMultiple(a + b, size)
  {
    if a > 0 {
      MultiplesAdd(a - size, b, size);
    }
  }

  // -------------------------------------------------------------------- The buffer

  class CImageOutput {
    var m_pbOutputBuffer: array?<byte>
    var m_cbOutputBuffer: nat
    var m_nOutputVirtAddr: nat
    var m_nOutputVirtSize: nat
    var m_nNextFileAddr: nat
    var m_nNextVirtAddr: nat
    const FileAlignment: nat
    const SectionAlignment: nat

    ghost predicate Valid() reads this {
      && FileAlignment > 0 && SectionAlignment > 0 && IsMultiple(m_cbOutputBuffer, FileAlignment)
      && (if m_pbOutputBuffer == null then m_cbOutputBuffer == 0 else m_cbOutputBuffer == m_pbOutputBuffer.Length)
    }

    constructor (fileAlignment: nat, sectionAlignment: nat)
      requires fileAlignment > 0 && sectionAlignment > 0
      ensures Valid() && FileAlignment == fileAlignment && SectionAlignment == sectionAlignment && m_pbOutputBuffer == null
    {
      FileAlignment, SectionAlignment := fileAlignment, sectionAlignment;
      m_pbOutputBuffer, m_cbOutputBuffer := null, 0;
      m_nOutputVirtAddr, m_nOutputVirtSize, m_nNextFileAddr, m_nNextVirtAddr := 0, 0, 0, 0;
    }

    method SizeOutputBuffer(cb: nat, noMemory: bool) returns (ok: bool)
      requires Valid()
      modifies this`m_pbOutputBuffer, this`m_cbOutputBuffer
      ensures Valid() && (ok ==> cb <= m_cbOutputBuffer) && (!ok ==> noMemory)
      ensures m_pbOutputBuffer == old(m_pbOutputBuffer) || (m_pbOutputBuffer != null && fresh(m_pbOutputBuffer))
      ensures ok && cb > 0 ==> m_pbOutputBuffer != null
      ensures old(m_cbOutputBuffer) <= m_cbOutputBuffer
      ensures old(m_pbOutputBuffer) != null ==> m_pbOutputBuffer != null && m_pbOutputBuffer[..old(m_cbOutputBuffer)] == old(m_pbOutputBuffer[..])
    {
      ok := true;
      if m_cbOutputBuffer < cb {
        var cbData := if cb < 1024 then 1024 else cb;
        cbData := Align(cbData, FileAlignment);
        if noMemory {
          return false;
        }
        var pOutput := new byte[cbData](_ => 0);
        if m_pbOutputBuffer != null {
          forall i | 0 <= i < m_cbOutputBuffer {
            pOutput[i] := m_pbOutputBuffer[i];
          }
          assert pOutput[..m_cbOutputBuffer] == m_pbOutputBuffer[..];
        }
        m_pbOutputBuffer := pOutput;
        m_cbOutputBuffer := cbData;
      }
    }

    /** AllocateOutput: the next bytes of the section, zeroed, at offset `o` of the buffer. */
    method AllocateOutput(cb: nat) returns (ok: bool, o: nat, nVirtAddr: nat)
      requires Valid() && m_pbOutputBuffer != null
      modifies this`m_nOutputVirtSize, m_pbOutputBuffer
      ensures Valid() && m_nOutputVirtSize == old(m_nOutputVirtSize) + QuadAlign(cb)
      ensures o == old(m_nOutputVirtSize) && nVirtAddr == m_nOutputVirtAddr + o
      ensures ok <==> m_nOutputVirtSize <= m_cbOutputBuffer
      ensures ok ==> m_pbOutputBuffer[o..m_nOutputVirtSize] == Zeros(QuadAlign(cb))
      ensures forall i | 0 <= i < m_pbOutputBuffer.Length && !(ok && o <= i < m_nOutputVirtSize) :: m_pbOutputBuffer[i] == old(m_pbOutputBuffer[i])
    {
      var cbData := QuadAlign(cb);
      o := m_nOutputVirtSize;
      nVirtAddr := m_nOutputVirtAddr + m_nOutputVirtSize;
      m_nOutputVirtSize := m_nOutputVirtSize + cbData;
      if m_nOutputVirtSize > m_cbOutputBuffer {
        return false, o, nVirtAddr;
      }
      forall i | o <= i < o + cbData {
        m_pbOutputBuffer[i] := 0;
      }
      return true, o, nVirtAddr;
    }

    /** An allocation and what is then written into it. */
    method Place(bytes: seq<byte>) returns (ok: bool, o: nat, nVirtAddr: nat)
      requires Valid() && m_pbOutputBuffer != null && m_nOutputVirtSize <= m_cbOutputBuffer
      modifies this`m_nOutputVirtSize, m_pbOutputBuffer
      ensures Valid() && m_nOutputVirtSize == old(m_nOutputVirtSize) + QuadAlign(|bytes|)
      ensures o == old(m_nOutputVirtSize) && nVirtAddr == m_nOutputVirtAddr + o
      ensures ok <==> m_nOutputVirtSize <= m_cbOutputBuffer
      ensures ok ==> m_pbOutputBuffer[..m_nOutputVirtSize] == old(m_pbOutputBuffer[..m_nOutputVirtSize]) + Quad(bytes)
    {
      ok, o, nVirtAddr := AllocateOutput(|bytes|);
      if ok {
        ghost var s := m_pbOutputBuffer[o..m_nOutputVirtSize];
        forall i | 0 <= i < |bytes| {
          m_pbOutputBuffer[o + i] := bytes[i];
        }
        assert s[|bytes|..] == Zeros(QuadAlign(|bytes|) - |bytes|);
        assert m_pbOutputBuffer[o..m_nOutputVirtSize] == Quad(bytes);
        assert m_pbOutputBuffer[..o] == old(m_pbOutputBuffer[..m_nOutputVirtSize]);
      }
    }

    /** AlignFileData: pads the file with zeros, for which it uses the buffer, if the next address is
      * not aligned; `filled` is whether it did.
      */
    method AlignFileData(noMemory: bool) returns (ok: bool, filled: bool)
      requires Valid()
      modifies this, m_pbOutputBuffer
      ensures Valid()
      ensures m_nNextFileAddr == Align(old(m_nNextFileAddr), FileAlignment) && m_nNextVirtAddr == Align(old(m_nNextVirtAddr), SectionAlignment)
      ensures m_nOutputVirtSize == old(m_nOutputVirtSize) && m_nOutputVirtAddr == old(m_nOutputVirtAddr)
      ensures filled <==> !IsMultiple(old(m_nNextFileAddr), FileAlignment)
      ensures ok || noMemory
      ensures !filled ==> ok && m_pbOutputBuffer == old(m_pbOutputBuffer) && (m_pbOutputBuffer != null ==> m_pbOutputBuffer[..] == old(m_pbOutputBuffer[..]))
      ensures m_pbOutputBuffer == old(m_pbOutputBuffer) || (m_pbOutputBuffer != null && fresh(m_pbOutputBuffer))
    {
      var nLastFileAddr := m_nNextFileAddr;
      m_nNextFileAddr := Align(m_nNextFileAddr, FileAlignment);
      m_nNextVirtAddr := Align(m_nNextVirtAddr, SectionAlignment);
      filled := m_nNextFileAddr > nLastFileAddr;
      if IsMultiple(nLastFileAddr, FileAlignment) {
        AlignLeast(nLastFileAddr, nLastFileAddr, FileAlignment);
      }
      ok := true;
      if filled {
        ok := SizeOutputBuffer(4096, noMemory);
        if ok {
          forall i | 0 <= i < 4096 {
            m_pbOutputBuffer[i] := 0;
          }
        }
      }
    }
  }

  /** Bytes padded with zeros to a multiple of 8. */
  function Quad(bytes: seq<byte>): (s: seq<byte>)
    ensures |s| == QuadAlign(|bytes|)
  {
    bytes + Zeros(QuadAlign(|bytes|) - |bytes|)
  }
}
