/** Numbers as 64-bit addresses: the allocator and the transactions compute with numbers, the machine with
  * bit vectors.
  */
module Arm64Address {
  import opened Arm64
  import opened Arm64Encoding
  import opened Arm64Copy
  import opened Arm64Bits
  import opened Arm64Relocation

  const ADDRESS_LIMIT := 0x1_0000_0000_0000_0000

  function Twice(x: bv64): bv64 { x << 1 }
  function TwiceAndOne(x: bv64): bv64 { (x << 1) | 1 }

  /** A number modulo 2^64, by its binary digits. */
  function AsAddress(a: nat): Addr {
    if a == 0 then 0 else if a % 2 == 0 then Twice(AsAddress(a / 2)) else TwiceAndOne(AsAddress(a / 2))
  }

  lemma Digits(x: bv64)
    ensures TwiceAndOne(x) == Plus(Twice(x), 1) && Twice(Plus(x, 1)) == Plus(TwiceAndOne(x), 1)
  {}

  lemma FirstOnes()
    ensures TwiceAndOne(0) == 1 && Plus(0, 1) == 1
  {}

  /** The next number is the next address; with AsAddress(0) == 0 this says which address a number is. */
  lemma {:induction false} AddressNext(a: nat)
    ensures AsAddress(a + 1) == Plus(AsAddress(a), 1)
  {
    hide Twice, TwiceAndOne, Plus;
    if a == 0 {
      FirstOnes();
      assert AsAddress(1) == TwiceAndOne(AsAddress(0));
    } else {
      Digits(AsAddress(a / 2));
      if a % 2 == 0 {
        assert (a + 1) / 2 == a / 2;
      } else {
        assert (a + 1) / 2 == a / 2 + 1;
        AddressNext(a / 2);
      }
    }
  }

  lemma PlusNothing(a: Addr)
    ensures Plus(a, 0) == a
  {}

  lemma {:induction false} AddressSum(a: nat, b: nat)
    ensures AsAddress(a + b) == Plus(AsAddress(a), AsAddress(b))
    decreases b
  {
    hide AsAddress, Plus;
    if b == 0 {
      PlusNothing(AsAddress(a));
      AddressZero();
    } else {
      AddressSum(a, b - 1);
      AddressNext(a + b - 1);
      AddressNext(b - 1);
      PlusAssociates(AsAddress(a), AsAddress(b - 1), 1);
    }
  }

  lemma AddressZero()
    ensures AsAddress(0) == 0
  {}

  lemma TwoThreeFour()
    ensures Plus(1, 1) == 2 && Plus(2, 1) == 3 && Plus(3, 1) == 4
  {}

  lemma SmallAddresses()
    ensures AsAddress(0) == 0 && AsAddress(1) == 1 && AsAddress(2) == 2 && AsAddress(3) == 3 && AsAddress(4) == 4
  {
    hide AsAddress, Plus;
    AddressZero();
    AddressNext(0);
    AddressNext(1);
    AddressNext(2);
    AddressNext(3);
    PlusNothing(1);
    TwoThreeFour();
    ZeroPlusOne();
  }

  lemma ZeroPlusOne()
    ensures Plus(0, 1) == 1
  {}

  // ------------------------------------------------------------------------- Alignment

  lemma LowBits(x: bv64)
    ensures Twice(Twice(Twice(x))) & 7 == 0
  {}

  lemma AddressAligned(a: nat)
    requires a % 8 == 0
    ensures AsAddress(a) & 7 == 0
  {
    hide Twice, TwiceAndOne;
    if a > 0 {
      assert AsAddress(a) == Twice(AsAddress(a / 2)) && AsAddress(a / 2) == Twice(AsAddress(a / 4));
      assert (a / 4) % 2 == 0 && a / 4 / 2 == a / 8;
      assert AsAddress(a / 4) == Twice(AsAddress(a / 8));
      LowBits(AsAddress(a / 8));
    }
  }

  // --------------------------------------------------------------------------- Pages

  function Pow2(k: nat): nat { if k == 0 then 1 else 2 * Pow2(k - 1) }

  /** `k` ones. */
  function Mask(k: nat): bv64 { if k == 0 then 0 else TwiceAndOne(Mask(k - 1)) }

  predicate OnlyIn(x: bv64, m: bv64) { x & !m == 0 }

  lemma OnlyInDigits(x: bv64, m: bv64)
    requires OnlyIn(x, m)
    ensures OnlyIn(Twice(x), TwiceAndOne(m)) && OnlyIn(TwiceAndOne(x), TwiceAndOne(m))
  {}

  lemma NothingOnlyIn(m: bv64)
    ensures OnlyIn(0, m)
  {}

  /** A number of `k` digits has no other ones. */
  lemma {:induction false} AddressOnlyIn(a: nat, k: nat)
    requires a < Pow2(k)
    ensures OnlyIn(AsAddress(a), Mask(k))
    decreases k
  {
    hide OnlyIn, Twice, TwiceAndOne;
    if a == 0 {
      NothingOnlyIn(Mask(k));
    } else {
      AddressOnlyIn(a / 2, k - 1);
      OnlyInDigits(AsAddress(a / 2), Mask(k - 1));
    }
  }

  lemma EightMore(k: nat)
    ensures Mask(k + 8) == (Mask(k) << 8) | 0xff && Pow2(k + 8) == 0x100 * Pow2(k)
  {
    hide TwiceAndOne;
    EightOnes(Mask(k));
    assert Mask(k + 1) == TwiceAndOne(Mask(k)) && Mask(k + 2) == TwiceAndOne(Mask(k + 1)) && Mask(k + 3) == TwiceAndOne(Mask(k + 2));
    assert Mask(k + 4) == TwiceAndOne(Mask(k + 3)) && Mask(k + 5) == TwiceAndOne(Mask(k + 4)) && Mask(k + 6) == TwiceAndOne(Mask(k + 5));
    assert Mask(k + 7) == TwiceAndOne(Mask(k + 6)) && Mask(k + 8) == TwiceAndOne(Mask(k + 7));
    assert Pow2(k + 1) == 2 * Pow2(k) && Pow2(k + 2) == 2 * Pow2(k + 1) && Pow2(k + 3) == 2 * Pow2(k + 2) && Pow2(k + 4) == 2 * Pow2(k + 3);
    assert Pow2(k + 5) == 2 * Pow2(k + 4) && Pow2(k + 6) == 2 * Pow2(k + 5) && Pow2(k + 7) == 2 * Pow2(k + 6) && Pow2(k + 8) == 2 * Pow2(k + 7);
  }

  lemma EightOnes(m: bv64)
    ensures TwiceAndOne(TwiceAndOne(TwiceAndOne(TwiceAndOne(TwiceAndOne(TwiceAndOne(TwiceAndOne(TwiceAndOne(m)))))))) == (m << 8) | 0xff
  {}

  lemma FirstMasks()
    ensures Mask(4) == 0xf && Pow2(4) == 0x10 && Mask(7) == 0x7f && Pow2(7) == 0x80
  {
    assert Mask(1) == 1;
    assert Mask(2) == 3;
    assert Mask(3) == 7;
    assert Mask(4) == 0xf;
    assert Mask(5) == 0x1f;
    assert Mask(6) == 0x3f;
    assert Pow2(3) == 8 && Pow2(4) == 0x10 && Pow2(7) == 8 * Pow2(4);
  }

  lemma Masks()
    ensures Mask(20) == 0xf_ffff && Pow2(20) == 0x10_0000
    ensures Mask(63) == 0x7fff_ffff_ffff_ffff && Pow2(63) == 0x8000_0000_0000_0000
  {
    FirstMasks();
    EightMore(4);
    EightMore(12);
    EightMore(7);
    EightMore(15);
    EightMore(23);
    EightMore(31);
    EightMore(39);
    EightMore(47);
    EightMore(55);
  }

  function Half(x: bv64): bv64 { x >> 1 }

  lemma Halved(x: bv64)
    requires OnlyIn(x, 0x7fff_ffff_ffff_ffff)
    ensures Half(Twice(x)) == x && Half(TwiceAndOne(x)) == x
  {}

  lemma HalfOfNothing()
    ensures Half(0) == 0
  {}

  lemma AddressHalf(a: nat)
    requires a < ADDRESS_LIMIT
    ensures Half(AsAddress(a)) == AsAddress(a / 2)
  {
    hide Twice, TwiceAndOne, Mask, Pow2, OnlyIn, Half;
    Masks();
    AddressOnlyIn(a / 2, 63);
    Halved(AsAddress(a / 2));
    HalfOfNothing();
  }

  function Halves(x: bv64, n: nat): bv64 { if n == 0 then x else Half(Halves(x, n - 1)) }

  function Quotient(a: nat, n: nat): nat { if n == 0 then a else Quotient(a, n - 1) / 2 }

  lemma {:induction false} AddressHalves(a: nat, n: nat)
    requires a < ADDRESS_LIMIT
    ensures Halves(AsAddress(a), n) == AsAddress(Quotient(a, n)) && Quotient(a, n) <= a
  {
    hide AsAddress, Half;
    if n > 0 {
      AddressHalves(a, n - 1);
      AddressHalf(Quotient(a, n - 1));
    }
  }

  lemma ShiftTwelve(x: bv64)
    ensures Half(Half(Half(Half(Half(Half(Half(Half(Half(Half(Half(Half(x)))))))))))) == x >> 12
  {}

  lemma TwelveHalves(x: bv64)
    ensures Halves(x, 12) == x >> 12
  {
    hide Half;
    ShiftTwelve(x);
    assert Halves(x, 1) == Half(x);
    assert Halves(x, 2) == Half(Halves(x, 1)) && Halves(x, 3) == Half(Halves(x, 2)) && Halves(x, 4) == Half(Halves(x, 3));
    assert Halves(x, 5) == Half(Halves(x, 4)) && Halves(x, 6) == Half(Halves(x, 5)) && Halves(x, 7) == Half(Halves(x, 6));
    assert Halves(x, 8) == Half(Halves(x, 7)) && Halves(x, 9) == Half(Halves(x, 8)) && Halves(x, 10) == Half(Halves(x, 9));
    assert Halves(x, 11) == Half(Halves(x, 10)) && Halves(x, 12) == Half(Halves(x, 11));
  }

  lemma TwelveQuotients(a: nat)
    ensures Quotient(a, 12) == a / 0x1000
  {
    assert Quotient(a, 1) == a / 2;
    assert Quotient(a, 2) == a / 4;
    assert Quotient(a, 3) == a / 8;
    assert Quotient(a, 4) == a / 0x10;
    assert Quotient(a, 5) == a / 0x20;
    assert Quotient(a, 6) == a / 0x40;
    assert Quotient(a, 7) == a / 0x80;
    assert Quotient(a, 8) == a / 0x100;
    assert Quotient(a, 9) == a / 0x200;
    assert Quotient(a, 10) == a / 0x400;
    assert Quotient(a, 11) == a / 0x800;
  }

  /** The page number of an address is that of the number. */
  lemma AddressPage(a: nat)
    requires a < ADDRESS_LIMIT
    ensures PageNumber(AsAddress(a)) == AsAddress(a / 0x1000)
  {
    hide AsAddress, Halves, Quotient, PageNumber;
    AddressHalves(a, 12);
    TwelveHalves(AsAddress(a));
    TwelveQuotients(a);
    PageNumberIs(AsAddress(a));
  }

  lemma PageNumberIs(x: bv64)
    ensures PageNumber(x) == x >> 12
  {}

  function Negated(d: bv64): bv64 { 0 - d }

  lemma SmallInRange(d: bv64)
    requires OnlyIn(d, 0xf_ffff)
    ensures InRange(d, 0x10_0000) && InRange(Negated(d), 0x10_0000)
  {}

  lemma PlusNegated(d: bv64)
    ensures Plus(d, Negated(d)) == 0
  {}

  lemma DistanceBack(x: bv64, d: bv64)
    ensures Distance(Plus(x, d), x) == Negated(d)
  {
    hide Plus, Distance, Negated;
    PlusNegated(d);
    PlusAssociates(x, d, Negated(d));
    PlusNothing(x);
    PlusThenDistance(Plus(x, d), Negated(d));
  }

  /** Page numbers less than 2^20 apart are so as addresses. */
  lemma PagesNear(m: nat, n: nat)
    requires -0x10_0000 < m - n < 0x10_0000
    ensures InRange(Distance(AsAddress(n), AsAddress(m)), 0x10_0000)
  {
    hide AsAddress, Plus, InRange, Distance, OnlyIn, Negated, Mask, Pow2;
    Masks();
    if m >= n {
      AddressSum(n, m - n);
      AddressOnlyIn(m - n, 20);
      PlusThenDistance(AsAddress(n), AsAddress(m - n));
      SmallInRange(AsAddress(m - n));
    } else {
      AddressSum(m, n - m);
      AddressOnlyIn(n - m, 20);
      DistanceBack(AsAddress(m), AsAddress(n - m));
      SmallInRange(AsAddress(n - m));
    }
  }
}
