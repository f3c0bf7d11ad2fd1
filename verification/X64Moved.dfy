/** Every x64 instruction whose length does not change is copied byte for byte, except for one field
  * that is relative to the next instruction, and the address that field names is kept exactly when it
  * still fits (detours/src/disasm.cpp:365-440, 496-560).
  */
module X64Moved {
  import opened PayloadLayout
  import opened X64Copy
  import opened X64Simulation

  /** `b` is `a` with the field at `o` moved by a copy over the distance `d`. */
  predicate FieldMoved(a: seq<byte>, b: seq<byte>, o: nat, n: nat, d: int) {
    o + n <= |a| == |b| && b == Adjusted(a, (o, n), 0, d)
  }

  ghost predicate Moved(a: seq<byte>, b: seq<byte>, d: int) {
    b == a || exists o, n :: FieldMoved(a, b, o, n, d)
  }

  /** The address a moved field names: kept if and only if the new offset fits the field. */
  lemma AddressKept(a: seq<byte>, b: seq<byte>, o: nat, n: nat, src: int, dst: int)
    requires FieldMoved(a, b, o, n, dst - src)
    ensures b[..o] == a[..o] && b[o + n..] == a[o + n..]
    ensures dst + |b| + Signed(b[o..o + n]) == src + |a| + Signed(a[o..o + n]) <==> Fits(n, Signed(a[o..o + n]) - (dst - src))
  {
    var x := Signed(a[o..o + n]) - (dst - src);
    assert b[o..o + n] == LittleEndian(n, x);
    SignedRoundTrip(n, x);
  }

  lemma FieldBehind(front: seq<byte>, a: seq<byte>, b: seq<byte>, o: nat, n: nat, d: int)
    requires FieldMoved(a, b, o, n, d)
    ensures FieldMoved(front + a, front + b, |front| + o, n, d)
  {
    hide LittleEndian, Signed;
    var k, whole := |front| + o, front + a;
    var field := LittleEndian(n, Signed(a[o..o + n]) - d);
    assert whole[k..k + n] == a[o..o + n];
    assert whole[..k] == front + a[..o];
    assert whole[k + n..] == a[o + n..];
    assert front + (a[..o] + field + a[o + n..]) == (front + a[..o]) + field + a[o + n..];
  }

  lemma MovedBehind(front: seq<byte>, a: seq<byte>, b: seq<byte>, d: int)
    requires Moved(a, b, d)
    ensures Moved(front + a, front + b, d)
  {
    hide FieldMoved;
    if b != a {
      var o: nat, n: nat :| FieldMoved(a, b, o, n, d);
      FieldBehind(front, a, b, o, n, d);
    }
  }

  ghost predicate CopiedWell(c: Option<Copied>, code: seq<byte>, d: int) {
    c.Some? ==> c.value.cbSrc <= |code| && (|c.value.bytes| == c.value.cbSrc ==> Moved(code[..c.value.cbSrc], c.value.bytes, d))
  }

  lemma BytesMoved(e: CopyEntry, o: Overrides, code: seq<byte>, src: int, dst: int)
    requires e.CopyBytes? && (e.nModOffset > 0 ==> e.nRelOffset == 0)
    ensures CopiedWell(CopyBytesOf(e, o, code, src, dst), code, dst - src)
  {
    hide LittleEndian, Signed, Fits;
    var c := CopyBytesOf(e, o, code, src, dst);
    if c.Some? {
      var n := c.value.cbSrc;
      match RelField(e, code, n)
      case None =>
      case Some(f) => assert FieldMoved(code[..n], c.value.bytes, f.0, f.1, dst - src);
    }
  }

  lemma WellBehind(code: seq<byte>, n: nat, c: Option<Copied>, d: int)
    requires n <= |code| && CopiedWell(c, code[n..], d)
    ensures CopiedWell(Behind(code[..n], c), code, d)
  {
    if c.Some? && |c.value.bytes| == c.value.cbSrc {
      MovedBehind(code[..n], code[n..][..c.value.cbSrc], c.value.bytes, d);
      assert code[..n + c.value.cbSrc] == code[..n] + code[n..][..c.value.cbSrc];
    }
  }

  /** Whatever the instruction and its prefixes. */
  lemma {:induction false} CopyMoved(e: CopyEntry, o: Overrides, code: seq<byte>, src: int, dst: int)
    ensures CopiedWell(Copy(e, o, code, src, dst), code, dst - src)
    decreases |code|, if e.CopyBytes? then 0 else 1
  {
    hide CopyTable, CopyTable0F, CopyBytesOf, LittleEndian, Signed, Moved;
    if code == [] {
    } else {
      match e
      case CopyBytes(_, _, _, _, _) => if !(e.nModOffset > 0 && e.nRelOffset > 0) { BytesMoved(e, o, code, src, dst); }
      case CopyBytesJump =>
      case CopyBytesPrefix => PrefixedMoved(o, code, src, dst);
      case CopyBytesSegment => PrefixedMoved(o.(segment := code[0]), code, src, dst);
      case CopyBytesRax => PrefixedMoved(o.(rax := o.rax || code[0] / 8 % 2 == 1), code, src, dst);
      case Copy66 => PrefixedMoved(o.(operand := true), code, src, dst);
      case Copy67 => PrefixedMoved(o.(address := true), code, src, dst);
      case CopyF2 => PrefixedMoved(o.(f2 := true), code, src, dst);
      case CopyF3 => PrefixedMoved(o.(f3 := true), code, src, dst);
      case Copy0F =>
        if |code| >= 2 {
          CopyMoved(CopyTable0F(code[1]), o, code[1..], src + 1, dst + 1);
          WellBehind(code, 1, Copy(CopyTable0F(code[1]), o, code[1..], src + 1, dst + 1), dst - src);
        }
      case Copy0F78 => BytesMoved(if o.f2 || o.operand then Bytes4 else Bytes2Mod, o, code, src, dst);
      case CopyF6 => if |code| >= 2 { BytesMoved(if code[1] / 8 % 8 == 0 then Bytes2Mod1 else Bytes2Mod, o, code, src, dst); }
      case CopyF7 => if |code| >= 2 { BytesMoved(if code[1] / 8 % 8 == 0 then Bytes2ModOperand else Bytes2Mod, o, code, src, dst); }
      case CopyFF => BytesMoved(Bytes2Mod, o, code, src, dst);
      case CopyVex2 => if |code| >= 3 { VexMoved(1, 2, code[1] % 4, o, code, src, dst); }
      case CopyVex3 => if |code| >= 4 { VexMoved(code[1] % 0x20, 3, code[2] % 4, o.(rax := o.rax || code[2] >= 0x80), code, src, dst); }
      case CopyEvex =>
        if |code| >= 5 && !(code[1] / 8 % 2 == 1 || code[2] / 4 % 2 == 0) {
          VexMoved(code[1] % 4 + code[1] / 4 % 2 * 4, 4, code[2] % 4, o.(rax := o.rax || code[2] >= 0x80), code, src, dst);
        }
      case CopyXop =>
        if |code| >= 2 {
          var m := code[1] % 0x20;
          BytesMoved(if m == 8 then BytesXop1 else if m == 9 then BytesXop else if m == 10 then BytesXop4 else Bytes2Mod, o, code, src, dst);
        }
      case Invalid =>
    }
  }

  lemma {:induction false} PrefixedMoved(o: Overrides, code: seq<byte>, src: int, dst: int)
    requires code != []
    ensures CopiedWell(Prefixed(o, code, src, dst), code, dst - src)
    decreases |code|, 0
  {
    hide CopyTable, CopiedWell;
    if |code| >= 2 {
      CopyMoved(CopyTable(code[1]), o, code[1..], src + 1, dst + 1);
      WellBehind(code, 1, Copy(CopyTable(code[1]), o, code[1..], src + 1, dst + 1), dst - src);
    } else {
      NothingCopied(code, dst - src);
    }
  }

  lemma NothingCopied(code: seq<byte>, d: int)
    ensures CopiedWell(None, code, d)
  {}

  lemma InvalidCopied(code: seq<byte>, d: int)
    requires code != []
    ensures CopiedWell(Some(Copied([], 1, NoTarget, 0)), code, d)
  {}

  lemma {:induction false} VexMoved(m: nat, n: nat, p: nat, o: Overrides, code: seq<byte>, src: int, dst: int)
    requires 0 < n < |code|
    ensures CopiedWell(Vex(m, n, p, o, code, src, dst), code, dst - src)
    decreases |code|, 0
  {
    hide CopyTable0F, CopyBytesOf, CopiedWell;
    var o' := if p == 1 then o.(operand := true) else if p == 2 then o.(f3 := true) else if p == 3 then o.(f2 := true) else o;
    var rest := code[n..];
    if m == 1 {
      CopyMoved(CopyTable0F(rest[0]), o', rest, src + n, dst + n);
      WellBehind(code, n, Copy(CopyTable0F(rest[0]), o', rest, src + n, dst + n), dst - src);
    } else if m == 2 || m == 5 || m == 6 {
      BytesMoved(Bytes2Mod, o', rest, src + n, dst + n);
      WellBehind(code, n, CopyBytesOf(Bytes2Mod, o', rest, src + n, dst + n), dst - src);
    } else if m == 3 {
      BytesMoved(Bytes2Mod1, o', rest, src + n, dst + n);
      WellBehind(code, n, CopyBytesOf(Bytes2Mod1, o', rest, src + n, dst + n), dst - src);
    } else {
      InvalidCopied(rest, dst - src);
      WellBehind(code, n, Some(Copied([], 1, NoTarget, 0)), dst - src);
    }
  }
}
