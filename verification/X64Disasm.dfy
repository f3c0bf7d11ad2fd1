/** The x64 `CDetourDis` itself (detours/src/disasm.cpp:342-920): routines that write through the
  * destination and keep the overrides, the target and the extra length in fields.
  */
module X64Disasm {
  import opened PayloadLayout
  import opened X64Copy

  class CDetourDis {
    var m_bOperandOverride: bool
    var m_bAddressOverride: bool
    var m_bRaxOverride: bool
    var m_bF2: bool
    var m_bF3: bool
    var m_nSegmentOverride: nat
    var m_pbTarget: Target
    var m_lExtra: int

    function Now(): Overrides reads this {
      Overrides(m_bOperandOverride, m_bAddressOverride, m_bRaxOverride, m_bF2, m_bF3, m_nSegmentOverride)
    }

    predicate Clear() reads this { m_pbTarget == NoTarget && m_lExtra == 0 }

    constructor ()
      ensures Now() == NO_OVERRIDES && Clear()
    {
      m_bOperandOverride, m_bAddressOverride, m_bRaxOverride, m_bF2, m_bF3, m_nSegmentOverride := false, false, false, false, false, 0;
      m_pbTarget, m_lExtra := NoTarget, 0;
    }

    /** What a routine leaves: the bytes at `at`, the reported target and the extra length. */
    ghost predicate Done(before: seq<byte>, after: seq<byte>, at: nat, c: Option<Copied>, cb: nat)
      reads this
    {
      c.Some? ==>
        && at + |c.value.bytes| <= |before| && |after| == |before|
        && after[..at + |c.value.bytes|] == before[..at] + c.value.bytes
        && cb == c.value.cbSrc && m_pbTarget == c.value.target && m_lExtra == c.value.extra
    }

    /** AdjustTarget: the field in the copied bytes is rewritten, and the old target returned. */
    method AdjustTarget(rbDst: array<byte>, at: nat, cbOp: nat, cbTargetOffset: nat, cbTargetSize: nat, src: int, dst: int)
      returns (target: int)
      requires at + cbOp <= rbDst.Length && cbTargetOffset + cbTargetSize <= cbOp && m_lExtra == 0
      modifies this`m_lExtra, rbDst
      ensures var bytes := old(rbDst[at..at + cbOp]);
        && rbDst[at..at + cbOp] == Adjusted(bytes, (cbTargetOffset, cbTargetSize), src, dst)
        && target == src + cbOp + Signed(bytes[cbTargetOffset..cbTargetOffset + cbTargetSize])
        && m_lExtra == if Fits(cbTargetSize, Signed(bytes[cbTargetOffset..cbTargetOffset + cbTargetSize]) - (dst - src)) then 0 else 4 - cbTargetSize
      ensures forall i | 0 <= i < rbDst.Length && !(at <= i < at + cbOp) :: rbDst[i] == old(rbDst[i])
    {
      hide Fits, Signed, LittleEndian;
      ghost var b, bytes := rbDst[..], rbDst[at..at + cbOp];
      var p := at + cbTargetOffset;
      Slices(rbDst[..], at, at + cbOp, cbTargetOffset, cbTargetOffset + cbTargetSize);
      var nOldOffset := Signed(rbDst[p..p + cbTargetSize]);
      target := src + cbOp + nOldOffset;
      var nNewOffset := nOldOffset - (dst - src);
      var field := LittleEndian(cbTargetSize, nNewOffset);
      PutField(rbDst, p, field);
      if !Fits(cbTargetSize, nNewOffset) {
        m_lExtra := 4 - cbTargetSize;
      }
      ghost var c := rbDst[..];
      Assembled(b, c, at, cbOp, cbTargetOffset, field);
      assert c[at..at + cbOp] == rbDst[at..at + cbOp] && b[at..at + cbOp] == bytes;
    }

    method PutField(rbDst: array<byte>, p: nat, field: seq<byte>)
      requires p + |field| <= rbDst.Length
      modifies rbDst
      ensures forall i | 0 <= i < |field| :: rbDst[p + i] == field[i]
      ensures forall i | 0 <= i < rbDst.Length && !(p <= i < p + |field|) :: rbDst[i] == old(rbDst[i])
    {
      forall i | 0 <= i < |field| {
        rbDst[p + i] := field[i];
      }
    }

    lemma Assembled(b: seq<byte>, c: seq<byte>, at: nat, cbOp: nat, o: nat, field: seq<byte>)
      requires at + cbOp <= |b| == |c| && o + |field| <= cbOp
      requires forall i | 0 <= i < |field| :: c[at + o + i] == field[i]
      requires forall i | 0 <= i < |b| && !(at + o <= i < at + o + |field|) :: c[i] == b[i]
      ensures c[at..at + cbOp] == b[at..at + cbOp][..o] + field + b[at..at + cbOp][o + |field|..]
    {
      var bytes, p := b[at..at + cbOp], at + o;
      assert c[at..p] == bytes[..o];
      assert c[p..p + |field|] == field;
      assert c[p + |field|..at + cbOp] == bytes[o + |field|..];
    }

    lemma Slices(s: seq<byte>, i: nat, j: nat, k: nat, l: nat)
      requires i <= j <= |s| && k <= l <= j - i
      ensures s[i..j][k..l] == s[i + k..i + l]
    {
      assert forall n | 0 <= n < l - k :: s[i..j][k..l][n] == s[i + k..i + l][n];
    }

    method CopyBytes(e: CopyEntry, rbDst: array<byte>, at: nat, code: seq<byte>, src: int, dst: int) returns (ok: bool, cb: nat)
      requires e.CopyBytes? && (e.nModOffset > 0 ==> e.nRelOffset == 0) && at + |code| <= rbDst.Length && Clear()
      modifies this`m_pbTarget, this`m_lExtra, rbDst
      ensures ok == CopyBytesOf(e, Now(), code, src, dst).Some?
      ensures ok ==> Done(old(rbDst[..]), rbDst[..], at, CopyBytesOf(e, Now(), code, src, dst), cb)
    {
      hide Fits, Signed, LittleEndian, Adjusted;
      cb := 0;
      var size := SizeOf(e, Now(), code);
      if size.None? {
        return false, 0;
      }
      var nBytes := size.value;
      if |code| < nBytes || nBytes < e.nRelOffset || (e.nModOffset > 0 && nBytes <= e.nModOffset) {
        return false, 0;
      }
      var field := RelField(e, code, nBytes);
      if field.Some? && field.value.0 + field.value.1 > nBytes {
        return false, 0;
      }
      forall i | 0 <= i < nBytes {
        rbDst[at + i] := code[i];
      }
      assert rbDst[at..at + nBytes] == code[..nBytes] && rbDst[..at] == old(rbDst[..at]);
      assert rbDst[..at + nBytes] == rbDst[..at] + rbDst[at..at + nBytes];
      if field.Some? {
        var target := AdjustTarget(rbDst, at, nBytes, field.value.0, field.value.1, src, dst);
        assert rbDst[..at] == old(rbDst[..at]) && rbDst[..at + nBytes] == rbDst[..at] + rbDst[at..at + nBytes];
        m_pbTarget := if e.nRelOffset == 0 then NoTarget else At(target);
      }
      if e.flag == NOENLARGE {
        m_lExtra := -m_lExtra;
      }
      if e.flag == DYNAMIC {
        m_pbTarget := DynamicTarget;
      }
      return true, nBytes;
    }

    method CopyBytesJump(rbDst: array<byte>, at: nat, code: seq<byte>, src: int, dst: int) returns (ok: bool, cb: nat)
      requires code != [] && (code[0] == 0xeb || 0x70 <= code[0] < 0x80) && at + |code| + 4 <= rbDst.Length
      modifies this`m_pbTarget, this`m_lExtra, rbDst
      ensures ok == CopyJump(code, src, dst).Some?
      ensures ok ==> Done(old(rbDst[..]), rbDst[..], at, CopyJump(code, src, dst), cb)
    {
      hide Signed, LittleEndian;
      if |code| < 2 {
        return false, 0;
      }
      var nOldOffset := Signed(code[1..2]);
      m_pbTarget := At(src + 2 + nOldOffset);
      var bytes;
      if code[0] == 0xeb {
        bytes := [0xe9] + LittleEndian(4, nOldOffset - (dst - src + 3));
        m_lExtra := 3;
      } else {
        bytes := [0x0f, 0x80 + code[0] % 0x10] + LittleEndian(4, nOldOffset - (dst - src + 4));
        m_lExtra := 4;
      }
      forall i | 0 <= i < |bytes| {
        rbDst[at + i] := bytes[i];
      }
      assert rbDst[..at + |bytes|] == old(rbDst[..at]) + bytes;
      return true, 2;
    }

    /** The bytes of a prefix written in front of what is copied behind them. */
    method PutFront(rbDst: array<byte>, at: nat, front: seq<byte>)
      requires at + |front| <= rbDst.Length
      modifies rbDst
      ensures rbDst[..at + |front|] == old(rbDst[..at]) + front
      ensures forall i | at + |front| <= i < rbDst.Length :: rbDst[i] == old(rbDst[i])
    {
      forall i | 0 <= i < |front| {
        rbDst[at + i] := front[i];
      }
      assert rbDst[..at + |front|] == old(rbDst[..at]) + front;
    }

    /** CopyBytesPrefix, behind the routines that remember what the prefix means. */
    method CopyBytesPrefix(rbDst: array<byte>, at: nat, code: seq<byte>, src: int, dst: int) returns (ok: bool, cb: nat)
      requires code != [] && at + |code| + 4 <= rbDst.Length && Clear()
      modifies this, rbDst
      ensures ok == Prefixed(old(Now()), code, src, dst).Some?
      ensures ok ==> Done(old(rbDst[..]), rbDst[..], at, Prefixed(old(Now()), code, src, dst), cb)
      decreases |code|, 0
    {
      hide Copy, CopyTable;
      if |code| < 2 {
        return false, 0;
      }
      PutFront(rbDst, at, code[..1]);
      ghost var mid := rbDst[..];
      ok, cb := Run(CopyTable(code[1]), rbDst, at + 1, code[1..], src + 1, dst + 1);
      if ok { BehindDone(old(rbDst[..]), mid, rbDst[..], at, code[..1], Copy(CopyTable(code[1]), old(Now()), code[1..], src + 1, dst + 1), cb); }
      cb := 1 + cb;
    }

    lemma InvalidDone(s: seq<byte>, at: nat)
      requires at <= |s| && Clear()
      ensures Done(s, s, at, Some(Copied([], 1, NoTarget, 0)), 1)
    {
      assert s[..at] == s[..at] + [];
    }

    lemma BehindDone(before: seq<byte>, mid: seq<byte>, after: seq<byte>, at: nat, front: seq<byte>, c: Option<Copied>, cb: nat)
      requires at + |front| <= |before| == |mid| && mid[..at + |front|] == before[..at] + front
      requires Done(mid, after, at + |front|, c, cb)
      ensures Done(before, after, at, Behind(front, c), |front| + cb)
    {
      if c.Some? {
        assert before[..at] + front + c.value.bytes == before[..at] + (front + c.value.bytes);
      }
    }

    method CopyVex(m: nat, n: nat, p: nat, rbDst: array<byte>, at: nat, code: seq<byte>, src: int, dst: int) returns (ok: bool, cb: nat)
      requires 0 < n < |code| && at + |code| + 4 <= rbDst.Length && Clear()
      modifies this, rbDst
      ensures ok == Vex(m, n, p, old(Now()), code, src, dst).Some?
      ensures ok ==> Done(old(rbDst[..]), rbDst[..], at, Vex(m, n, p, old(Now()), code, src, dst), cb)
      decreases |code|, 0
    {
      hide Copy, CopyTable0F, CopyBytesOf, Behind, Done;
      PutFront(rbDst, at, code[..n]);
      ghost var mid := rbDst[..];
      if p == 1 { m_bOperandOverride := true; } else if p == 2 { m_bF3 := true; } else if p == 3 { m_bF2 := true; }
      ghost var o' := Now();
      var rest := code[n..];
      ghost var c;
      if m == 1 {
        ok, cb := Run(CopyTable0F(rest[0]), rbDst, at + n, rest, src + n, dst + n);
        c := Copy(CopyTable0F(rest[0]), o', rest, src + n, dst + n);
      } else if m == 2 || m == 5 || m == 6 {
        ok, cb := CopyBytes(Bytes2Mod, rbDst, at + n, rest, src + n, dst + n);
        c := CopyBytesOf(Bytes2Mod, o', rest, src + n, dst + n);
      } else if m == 3 {
        ok, cb := CopyBytes(Bytes2Mod1, rbDst, at + n, rest, src + n, dst + n);
        c := CopyBytesOf(Bytes2Mod1, o', rest, src + n, dst + n);
      } else {
        ok, cb := true, 1;
        c := Some(Copied([], 1, NoTarget, 0));
        InvalidDone(rbDst[..], at + n);
      }
      if ok { BehindDone(old(rbDst[..]), mid, rbDst[..], at, code[..n], c, cb); }
      cb := n + cb;
    }

    method CopyFF(rbDst: array<byte>, at: nat, code: seq<byte>, src: int, dst: int) returns (ok: bool, cb: nat)
      requires code != [] && at + |code| <= rbDst.Length && Clear()
      modifies this`m_pbTarget, this`m_lExtra, rbDst
      ensures ok == CopyIndirect(Now(), code, src, dst).Some?
      ensures ok ==> Done(old(rbDst[..]), rbDst[..], at, CopyIndirect(Now(), code, src, dst), cb)
    {
      hide CopyBytesOf;
      ok, cb := CopyBytes(Bytes2Mod, rbDst, at, code, src, dst);
      if |code| < 2 {
        return false, 0;
      }
      if ok {
        if code[1] == 0x15 || code[1] == 0x25 {
          if |code| >= 6 && m_nSegmentOverride != 0x64 && m_nSegmentOverride != 0x65 {
            m_pbTarget := Through(src + 6 + Signed(code[2..6]));
          } else {
            m_pbTarget := DynamicTarget;
          }
        } else if code[1] / 0x10 % 4 == 1 || code[1] / 0x10 % 4 == 2 {
          m_pbTarget := DynamicTarget;
        }
      }
    }

    static predicate IsPrefixRoutine(e: CopyEntry) {
      e.CopyBytesPrefix? || e.CopyBytesSegment? || e.CopyBytesRax? || e.Copy66? || e.Copy67? || e.CopyF2? || e.CopyF3?
    }

    /** The routines of prefixes: each remembers its prefix and goes on behind it. */
    method RunPrefix(e: CopyEntry, rbDst: array<byte>, at: nat, code: seq<byte>, src: int, dst: int) returns (ok: bool, cb: nat)
      requires IsPrefixRoutine(e)
      requires at + |code| + 4 <= rbDst.Length && Clear() && code != []
      modifies this, rbDst
      ensures ok == Copy(e, old(Now()), code, src, dst).Some?
      ensures ok ==> Done(old(rbDst[..]), rbDst[..], at, Copy(e, old(Now()), code, src, dst), cb)
      decreases |code|, 1
    {
      hide CopyTable, CopyTable0F, CopyBytesOf, CopyJump, CopyIndirect, Prefixed, Vex, Behind, Done;
      match e
      case CopyBytesPrefix => ok, cb := CopyBytesPrefix(rbDst, at, code, src, dst);
      case CopyBytesSegment =>
        m_nSegmentOverride := code[0];
        ok, cb := CopyBytesPrefix(rbDst, at, code, src, dst);
      case CopyBytesRax =>
        if code[0] / 8 % 2 == 1 { m_bRaxOverride := true; }
        ok, cb := CopyBytesPrefix(rbDst, at, code, src, dst);
      case Copy66 =>
        m_bOperandOverride := true;
        ok, cb := CopyBytesPrefix(rbDst, at, code, src, dst);
      case Copy67 =>
        m_bAddressOverride := true;
        ok, cb := CopyBytesPrefix(rbDst, at, code, src, dst);
      case CopyF2 =>
        m_bF2 := true;
        ok, cb := CopyBytesPrefix(rbDst, at, code, src, dst);
      case CopyF3 =>
        m_bF3 := true;
        ok, cb := CopyBytesPrefix(rbDst, at, code, src, dst);
    }

    /** The routines of VEX and EVEX prefixes. */
    method RunVex(e: CopyEntry, rbDst: array<byte>, at: nat, code: seq<byte>, src: int, dst: int) returns (ok: bool, cb: nat)
      requires e.CopyVex2? || e.CopyVex3? || e.CopyEvex?
      requires at + |code| + 4 <= rbDst.Length && Clear() && code != []
      modifies this, rbDst
      ensures ok == Copy(e, old(Now()), code, src, dst).Some?
      ensures ok ==> Done(old(rbDst[..]), rbDst[..], at, Copy(e, old(Now()), code, src, dst), cb)
      decreases |code|, 1
    {
      hide CopyTable, CopyTable0F, CopyBytesOf, CopyJump, CopyIndirect, Prefixed, Vex, Behind, Done;
      match e
      case CopyVex2 =>
        if |code| < 3 { return false, 0; }
        ok, cb := CopyVex(1, 2, code[1] % 4, rbDst, at, code, src, dst);
      case CopyVex3 =>
        if |code| < 4 { return false, 0; }
        m_bRaxOverride := m_bRaxOverride || code[2] >= 0x80;
        ok, cb := CopyVex(code[1] % 0x20, 3, code[2] % 4, rbDst, at, code, src, dst);
      case CopyEvex =>
        if |code| < 5 { return false, 0; }
        if code[1] / 8 % 2 == 1 || code[2] / 4 % 2 == 0 {
          InvalidDone(rbDst[..], at);
          return true, 1;
        }
        m_bRaxOverride := m_bRaxOverride || code[2] >= 0x80;
        ok, cb := CopyVex(code[1] % 4 + code[1] / 4 % 2 * 4, 4, code[2] % 4, rbDst, at, code, src, dst);
    }

    /** The routine an entry points to. */
    method Run(e: CopyEntry, rbDst: array<byte>, at: nat, code: seq<byte>, src: int, dst: int) returns (ok: bool, cb: nat)
      requires at + |code| + 4 <= rbDst.Length && Clear()
      modifies this, rbDst
      ensures ok == Copy(e, old(Now()), code, src, dst).Some?
      ensures ok ==> Done(old(rbDst[..]), rbDst[..], at, Copy(e, old(Now()), code, src, dst), cb)
      decreases |code|, 2
    {
      hide CopyTable, CopyTable0F, CopyBytesOf, CopyJump, CopyIndirect, Prefixed, Vex, Behind, Done;
      if code == [] {
        return false, 0;
      }
      if IsPrefixRoutine(e) {
        ok, cb := RunPrefix(e, rbDst, at, code, src, dst);
        return;
      }
      if e.CopyVex2? || e.CopyVex3? || e.CopyEvex? {
        ok, cb := RunVex(e, rbDst, at, code, src, dst);
        return;
      }
      match e
      case CopyBytes(_, _, _, _, _) =>
        if e.nModOffset > 0 && e.nRelOffset > 0 { return false, 0; }
        ok, cb := CopyBytes(e, rbDst, at, code, src, dst);
      case CopyBytesJump =>
        if !(code[0] == 0xeb || 0x70 <= code[0] < 0x80) { return false, 0; }
        ok, cb := CopyBytesJump(rbDst, at, code, src, dst);
      case Copy0F =>
        if |code| < 2 { return false, 0; }
        PutFront(rbDst, at, code[..1]);
        ghost var mid := rbDst[..];
        ok, cb := Run(CopyTable0F(code[1]), rbDst, at + 1, code[1..], src + 1, dst + 1);
        if ok { BehindDone(old(rbDst[..]), mid, rbDst[..], at, code[..1], Copy(CopyTable0F(code[1]), old(Now()), code[1..], src + 1, dst + 1), cb); }
        cb := 1 + cb;
      case Copy0F78 => ok, cb := CopyBytes(if m_bF2 || m_bOperandOverride then Bytes4 else Bytes2Mod, rbDst, at, code, src, dst);
      case CopyF6 =>
        if |code| < 2 { return false, 0; }
        ok, cb := CopyBytes(if code[1] / 8 % 8 == 0 then Bytes2Mod1 else Bytes2Mod, rbDst, at, code, src, dst);
      case CopyF7 =>
        if |code| < 2 { return false, 0; }
        ok, cb := CopyBytes(if code[1] / 8 % 8 == 0 then Bytes2ModOperand else Bytes2Mod, rbDst, at, code, src, dst);
      case CopyFF => ok, cb := CopyFF(rbDst, at, code, src, dst);
      case CopyXop =>
        if |code| < 2 { return false, 0; }
        var m := code[1] % 0x20;
        ok, cb := CopyBytes(if m == 8 then BytesXop1 else if m == 9 then BytesXop else if m == 10 then BytesXop4 else Bytes2Mod, rbDst, at, code, src, dst);
      case Invalid =>
        InvalidDone(rbDst[..], at);
        return true, 1;
    }

    /** CopyInstruction, on a fresh object: the bytes at `at` are the specified copy. */
    method CopyInstruction(rbDst: array<byte>, at: nat, code: seq<byte>, src: int, dst: int) returns (ok: bool, cb: nat)
      requires at + |code| + 4 <= rbDst.Length && Clear() && Now() == NO_OVERRIDES
      modifies this, rbDst
      ensures ok == X64Copy.CopyInstruction(code, src, dst).Some?
      ensures ok ==> Done(old(rbDst[..]), rbDst[..], at, X64Copy.CopyInstruction(code, src, dst), cb)
    {
      hide Copy, CopyTable;
      if code == [] {
        return false, 0;
      }
      ok, cb := Run(CopyTable(code[0]), rbDst, at, code, src, dst);
    }
  }
}
