/** The Thumb-2 branch and literal encodings of `CDetourDis` (detours/src/disasm.cpp:2311-2445,
  * 2602-2821). A 32-bit instruction is its first halfword above its second.
  */
module ThumbEncoding {
  type Half = bv16
  type Long = bv32
  type Addr = bv32

  // The displacements of each kind of branch, as signed words.
  predicate Fits5(delta: bv32) { delta <= 0x7f }
  predicate Fits8(delta: bv32) { delta < 0x100 || delta >= 0xffff_ff00 }
  predicate Fits11(delta: bv32) { delta < 0x800 || delta >= 0xffff_f800 }
  predicate Fits20(delta: bv32) { delta < 0x10_0000 || delta >= 0xfff0_0000 }
  predicate Fits24(delta: bv32) { delta < 0x100_0000 || delta >= 0xff00_0000 }

  predicate EvenDelta(delta: bv32) { delta & 1 == 0 }

  // ------------------------------------------------------------------- CBZ, CBNZ

  function DecodeBranch5(op: Half): bv32 { (((op >> 3) & 0x1f) as bv32 << 1) | (((op >> 9) & 1) as bv32 << 6) }

  function Place5(op: Half, delta: bv32): Half {
    (op & 0xfd07) | ((((delta >> 1) & 0x1f) << 3) | (((delta >> 6) & 1) << 9)) as bv16
  }

  /** 0 if the displacement does not fit, as for all encoders. */
  function EncodeBranch5(op: Half, delta: bv32): Half { if Fits5(delta) then Place5(op, delta) else 0 }

  // ---------------------------------------------------------------- 16-bit branches

  function Extend8(t: bv32): bv32 { if t & 0x100 != 0 then t | 0xffff_fe00 else t }

  function DecodeBranch8(op: Half): bv32 { Extend8((op & 0xff) as bv32 << 1) }

  function Place8(op: Half, delta: bv32): Half { (op & 0xff00) | ((delta >> 1) & 0xff) as bv16 }

  function EncodeBranch8(op: Half, delta: bv32): Half { if Fits8(delta) then Place8(op, delta) else 0 }

  function Extend11(t: bv32): bv32 { if t & 0x800 != 0 then t | 0xffff_f000 else t }

  function DecodeBranch11(op: Half): bv32 { Extend11((op & 0x7ff) as bv32 << 1) }

  function Place11(op: Half, delta: bv32): Half { (op & 0xf800) | ((delta >> 1) & 0x7ff) as bv16 }

  function EncodeBranch11(op: Half, delta: bv32): Half { if Fits11(delta) then Place11(op, delta) else 0 }

  // ---------------------------------------------------------------- 32-bit branches

  function Raw20(op: Long): bv32 {
    ((op & 0x7ff) << 1) | (((op >> 16) & 0x3f) << 12) | (((op >> 13) & 1) << 18) | (((op >> 11) & 1) << 19) | (((op >> 26) & 1) << 20)
  }

  function Place20(op: Long, delta: bv32): Long {
    (op & 0xfbc0_d000) | ((delta >> 1) & 0x7ff) | (((delta >> 12) & 0x3f) << 16) | (((delta >> 18) & 1) << 13)
    | (((delta >> 19) & 1) << 11) | (((delta >> 20) & 1) << 26)
  }

  function Extend20(t: bv32): bv32 { if t & 0x10_0000 != 0 then t | 0xffe0_0000 else t }

  function DecodeBranch20(op: Long): bv32 { Extend20(Raw20(op)) }

  function EncodeBranch20(op: Long, delta: bv32): Long { if Fits20(delta) then Place20(op, delta) else 0 }

  /** The bits I1 and I2 are the negated exclusive-or of J1 and J2 with the sign. */
  function Raw24(op: Long): bv32 {
    ((op & 0x7ff) << 1) | (((op >> 16) & 0x3ff) << 12) | ((1 ^ ((op >> 11) & 1) ^ ((op >> 26) & 1)) << 22)
    | ((1 ^ ((op >> 13) & 1) ^ ((op >> 26) & 1)) << 23) | (((op >> 26) & 1) << 24)
  }

  function Place24(op: Long, delta: bv32): Long {
    (op & 0xf800_d000) | ((delta >> 1) & 0x7ff) | (((delta >> 12) & 0x3ff) << 16)
    | ((1 ^ ((delta >> 22) & 1) ^ ((delta >> 24) & 1)) << 11) | ((1 ^ ((delta >> 23) & 1) ^ ((delta >> 24) & 1)) << 13)
    | (((delta >> 24) & 1) << 26)
  }

  function Extend24(t: bv32): bv32 { if t & 0x100_0000 != 0 then t | 0xfe00_0000 else t }

  function DecodeBranch24(op: Long): bv32 { Extend24(Raw24(op)) }

  /** The link bit is the original's: the one caller that sets it says what it was. */
  function EncodeBranch24(op: Long, delta: bv32): Long { if Fits24(delta) then Place24(op, delta) else 0 }

  // ------------------------------------------------------------- They are inverse

  lemma Branch5RoundTrip(op: Half, delta: bv32)
    requires EvenDelta(delta)
    ensures DecodeBranch5(Place5(op, delta)) == delta <==> Fits5(delta)
    ensures Fits5(delta) ==> DecodeBranch5(EncodeBranch5(op, delta)) == delta
  {
    Place5RoundTrip(op, delta);
    hide DecodeBranch5, Place5, Fits5;
  }

  lemma Place5RoundTrip(op: Half, delta: bv32)
    requires EvenDelta(delta)
    ensures DecodeBranch5(Place5(op, delta)) == delta <==> Fits5(delta)
  {}

  lemma Branch5Keeps(op: Half, delta: bv32)
    ensures Place5(op, delta) & 0xfd07 == op & 0xfd07
  {}

  lemma Branch8RoundTrip(op: Half, delta: bv32)
    requires EvenDelta(delta)
    ensures DecodeBranch8(Place8(op, delta)) == delta <==> Fits8(delta)
    ensures Fits8(delta) ==> DecodeBranch8(EncodeBranch8(op, delta)) == delta
  {
    Place8RoundTrip(op, delta);
    hide DecodeBranch8, Place8, Fits8;
  }

  lemma Place8RoundTrip(op: Half, delta: bv32)
    requires EvenDelta(delta)
    ensures DecodeBranch8(Place8(op, delta)) == delta <==> Fits8(delta)
  {}

  lemma Branch8Keeps(op: Half, delta: bv32)
    ensures Place8(op, delta) & 0xff00 == op & 0xff00
  {}

  lemma Branch11RoundTrip(op: Half, delta: bv32)
    requires EvenDelta(delta)
    ensures DecodeBranch11(Place11(op, delta)) == delta <==> Fits11(delta)
    ensures Fits11(delta) ==> DecodeBranch11(EncodeBranch11(op, delta)) == delta
  {
    Place11RoundTrip(op, delta);
    hide DecodeBranch11, Place11, Fits11;
  }

  lemma Place11RoundTrip(op: Half, delta: bv32)
    requires EvenDelta(delta)
    ensures DecodeBranch11(Place11(op, delta)) == delta <==> Fits11(delta)
  {}

  lemma Branch11Keeps(op: Half, delta: bv32)
    ensures Place11(op, delta) & 0xf800 == op & 0xf800
  {}

  lemma Raw20Place20(op: Long, delta: bv32)
    ensures Raw20(Place20(op, delta)) == delta & 0x1f_fffe
  {}

  lemma Extend20Forward(delta: bv32)
    requires delta < 0x10_0000 && EvenDelta(delta)
    ensures Extend20(delta & 0x1f_fffe) == delta
  {}

  lemma Extend20Back(delta: bv32)
    requires delta >= 0xfff0_0000 && EvenDelta(delta)
    ensures Extend20(delta & 0x1f_fffe) == delta
  {}

  lemma Extended20(delta: bv32)
    ensures Fits20(Extend20(delta & 0x1f_fffe))
  {}

  lemma Extend20Fits(delta: bv32)
    requires EvenDelta(delta)
    ensures Extend20(delta & 0x1f_fffe) == delta <==> Fits20(delta)
  {
    hide Extend20, EvenDelta;
    Extended20(delta);
    if delta < 0x10_0000 { Extend20Forward(delta); } else if delta >= 0xfff0_0000 { Extend20Back(delta); }
  }

  lemma Branch20RoundTrip(op: Long, delta: bv32)
    requires EvenDelta(delta)
    ensures DecodeBranch20(Place20(op, delta)) == delta <==> Fits20(delta)
    ensures Fits20(delta) ==> DecodeBranch20(EncodeBranch20(op, delta)) == delta
  {
    hide Raw20, Place20, Extend20, EvenDelta, Fits20;
    Raw20Place20(op, delta);
    Extend20Fits(delta);
  }

  lemma Branch20Keeps(op: Long, delta: bv32)
    ensures Place20(op, delta) & 0xfbc0_d000 == op & 0xfbc0_d000
  {}

  lemma Raw24Place24(op: Long, delta: bv32)
    ensures Raw24(Place24(op, delta)) == delta & 0x1ff_fffe
  {}

  lemma Extend24Forward(delta: bv32)
    requires delta < 0x100_0000 && EvenDelta(delta)
    ensures Extend24(delta & 0x1ff_fffe) == delta
  {}

  lemma Extend24Back(delta: bv32)
    requires delta >= 0xff00_0000 && EvenDelta(delta)
    ensures Extend24(delta & 0x1ff_fffe) == delta
  {}

  lemma Extended24(delta: bv32)
    ensures Fits24(Extend24(delta & 0x1ff_fffe))
  {}

  lemma Extend24Fits(delta: bv32)
    requires EvenDelta(delta)
    ensures Extend24(delta & 0x1ff_fffe) == delta <==> Fits24(delta)
  {
    hide Extend24, EvenDelta;
    Extended24(delta);
    if delta < 0x100_0000 { Extend24Forward(delta); } else if delta >= 0xff00_0000 { Extend24Back(delta); }
  }

  lemma Branch24RoundTrip(op: Long, delta: bv32)
    requires EvenDelta(delta)
    ensures DecodeBranch24(Place24(op, delta)) == delta <==> Fits24(delta)
    ensures Fits24(delta) ==> DecodeBranch24(EncodeBranch24(op, delta)) == delta
  {
    hide Raw24, Place24, Extend24, EvenDelta, Fits24;
    Raw24Place24(op, delta);
    Extend24Fits(delta);
  }

  lemma Branch24Keeps(op: Long, delta: bv32)
    ensures Place24(op, delta) & 0xf800_d000 == op & 0xf800_d000
  {}
}
