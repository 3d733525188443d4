/**
 C's bitwise operators on natural numbers, bit by bit, and the arithmetic they amount to for the
 masks and shifts the driver uses. Everything is kept linear: numbers are taken apart two bits or
 one byte at a time, never by a symbolic power of two.
 */
module Bits {

  type uint8 = n: int | 0 <= n < 0x100
  type uint16 = n: int | 0 <= n < 0x1_0000
  type uint32 = n: int | 0 <= n < 0x1_0000_0000
  type uint64 = n: int | 0 <= n < 0x1_0000_0000_0000_0000

  function And(a: nat, b: nat): nat {
    if a == 0 || b == 0 then 0 else 2 * And(a / 2, b / 2) + (if a % 2 == 1 && b % 2 == 1 then 1 else 0)
  }

  function Or(a: nat, b: nat): nat {
    if a == 0 then b
    else if b == 0 then a
    else 2 * Or(a / 2, b / 2) + (if a % 2 == 1 || b % 2 == 1 then 1 else 0)
  }

  /** Division with its quotient and remainder given. */
  lemma Divided(n: int, d: int, q: int, r: int)
    requires d > 0 && n == d * q + r && 0 <= r < d
    ensures n / d == q && n % d == r
  {
    var q', r' := n / d, n % d;
    var e := q' - q;
    assert n == d * q' + r';
    assert d * e == d * q' - d * q;
    assert d * (-e) == -(d * e);
    if e >= 1 {
      AtLeastOnce(d, e);
    } else if e <= -1 {
      AtLeastOnce(d, -e);
    }
  }

  lemma {:induction false} AtLeastOnce(d: nat, k: nat)
    requires k >= 1
    ensures d * k >= d
  {
    if k > 1 {
      AtLeastOnce(d, k - 1);
      assert d * k == d * (k - 1) + d;
    }
  }

  function Pow2(k: nat): nat {
    if k == 0 then 1 else 2 * Pow2(k - 1)
  }

  /** ~v for a 32-bit v. */
  function Not(v: uint32): uint32 {
    0xffff_ffff - v
  }

  /** The number whose low k bits are those of lo and whose other bits are hi. */
  function Cat(k: nat, hi: nat, lo: nat): nat {
    if k == 0 then hi else 2 * Cat(k - 1, hi, lo / 2) + lo % 2
  }

  lemma CatHalves(k: nat, hi: nat, lo: nat)
    ensures k == 0 ==> Cat(k, hi, lo) == hi
    ensures k > 0 ==> Cat(k, hi, lo) / 2 == Cat(k - 1, hi, lo / 2) && Cat(k, hi, lo) % 2 == lo % 2
  {}

  lemma {:induction false} AndCat(k: nat, hi: nat, lo: nat, hi': nat, lo': nat)
    ensures And(Cat(k, hi, lo), Cat(k, hi', lo')) == Cat(k, And(hi, hi'), And(lo, lo'))
  {
    hide And, Cat;
    CatHalves(k, hi, lo);
    CatHalves(k, hi', lo');
    CatHalves(k, And(hi, hi'), And(lo, lo'));
    if k > 0 {
      AndCat(k - 1, hi, lo / 2, hi', lo' / 2);
      HalveAnd(Cat(k, hi, lo), Cat(k, hi', lo'));
      HalveAnd(lo, lo');
    }
  }

  lemma {:induction false} OrCat(k: nat, hi: nat, lo: nat, hi': nat, lo': nat)
    ensures Or(Cat(k, hi, lo), Cat(k, hi', lo')) == Cat(k, Or(hi, hi'), Or(lo, lo'))
  {
    hide Or, Cat;
    CatHalves(k, hi, lo);
    CatHalves(k, hi', lo');
    CatHalves(k, Or(hi, hi'), Or(lo, lo'));
    if k > 0 {
      OrCat(k - 1, hi, lo / 2, hi', lo' / 2);
      HalveOr(Cat(k, hi, lo), Cat(k, hi', lo'));
      HalveOr(lo, lo');
    }
  }

  lemma HalveAnd(a: nat, b: nat)
    ensures And(a, b) == 2 * And(a / 2, b / 2) + (if a % 2 == 1 && b % 2 == 1 then 1 else 0)
  {}

  lemma HalveOr(a: nat, b: nat)
    ensures Or(a, b) == 2 * Or(a / 2, b / 2) + (if a % 2 == 1 || b % 2 == 1 then 1 else 0)
  {}

  lemma Cat2(k: nat, hi: nat, lo: nat)
    ensures Cat(k + 2, hi, lo) == 4 * Cat(k, hi, lo / 4) + lo % 4
  {
    assert Cat(k + 2, hi, lo) == 2 * Cat(k + 1, hi, lo / 2) + lo % 2;
    assert lo / 2 / 2 == lo / 4;
  }

  lemma Cat4(k: nat, hi: nat, lo: nat)
    ensures Cat(k + 4, hi, lo) == 16 * Cat(k, hi, lo / 16) + lo % 16
  {
    Cat2(k + 2, hi, lo);
    Cat2(k, hi, lo / 4);
    assert lo / 4 / 4 == lo / 16;
  }

  lemma Cat8(k: nat, hi: nat, lo: nat)
    ensures Cat(k + 8, hi, lo) == 256 * Cat(k, hi, lo / 256) + lo % 256
  {
    Cat4(k + 4, hi, lo);
    Cat4(k, hi, lo / 16);
    assert lo / 16 / 16 == lo / 256;
  }

  lemma CatSizes(hi: nat, lo: nat)
    ensures Cat(2, hi, lo) == 4 * hi + lo % 4
    ensures Cat(8, hi, lo) == 256 * hi + lo % 256
  {
    Cat2(0, hi, lo);
    Cat8(0, hi, lo);
  }

  lemma CatFields(hi: nat, lo: nat)
    ensures lo < 8 ==> Cat(3, hi, lo) == 8 * hi + lo
    ensures lo < 32 ==> Cat(5, hi, lo) == 32 * hi + lo
  {
    hide *;
    Cat2(1, hi, lo);
    Cat4(1, hi, lo);
    CatOne(hi, lo / 4);
    CatOne(hi, lo / 16);
  }

  lemma CatTwelve(hi: nat, lo: nat)
    requires lo < 4096
    ensures Cat(12, hi, lo) == 4096 * hi + lo
  {
    hide *;
    Cat8(4, hi, lo);
    Cat4(0, hi, lo / 256);
    CatOne(hi, lo / 256 / 16);
  }

  lemma CatOne(hi: nat, lo: nat)
    ensures Cat(0, hi, lo) == hi && Cat(1, hi, lo) == 2 * hi + lo % 2
  {}

  // ---------- bytes of a dword ----------

  /** The four bytes of a dword, lowest first. */
  datatype Lanes = Lanes(b0: uint8, b1: uint8, b2: uint8, b3: uint8)

  function Num(l: Lanes): uint32 {
    l.b0 + 0x100 * l.b1 + 0x1_0000 * l.b2 + 0x100_0000 * l.b3
  }

  function Split(v: uint32): Lanes {
    Lanes(v % 0x100, v / 0x100 % 0x100, v / 0x1_0000 % 0x100, v / 0x100_0000)
  }

  lemma NumSplit(v: uint32)
    ensures Num(Split(v)) == v
  {
    var h1, h2 := v / 0x100, v / 0x1_0000;
    assert h1 / 0x100 == h2 && h2 / 0x100 == v / 0x100_0000;
    assert v == 0x100 * h1 + v % 0x100 && h1 == 0x100 * h2 + h1 % 0x100;
  }

  lemma SplitNum(l: Lanes)
    ensures Split(Num(l)) == l
  {
    assert Num(l) / 0x100 == l.b1 + 0x100 * l.b2 + 0x1_0000 * l.b3;
    assert Num(l) / 0x1_0000 == l.b2 + 0x100 * l.b3;
  }

  /** & and | of two dwords, byte by byte. */
  lemma Bytewise(a: Lanes, b: Lanes)
    ensures And(Num(a), Num(b)) == And(a.b0, b.b0) + 0x100 * And(a.b1, b.b1)
                                   + 0x1_0000 * And(a.b2, b.b2) + 0x100_0000 * And(a.b3, b.b3)
    ensures Or(Num(a), Num(b)) == Or(a.b0, b.b0) + 0x100 * Or(a.b1, b.b1)
                                  + 0x1_0000 * Or(a.b2, b.b2) + 0x100_0000 * Or(a.b3, b.b3)
  {
    hide And, Or;
    ByteStep(a.b3, a.b2, b.b3, b.b2);
    ByteStep(a.b2 + 0x100 * a.b3, a.b1, b.b2 + 0x100 * b.b3, b.b1);
    ByteStep(a.b1 + 0x100 * a.b2 + 0x1_0000 * a.b3, a.b0, b.b1 + 0x100 * b.b2 + 0x1_0000 * b.b3, b.b0);
  }

  lemma ByteStep(hi: nat, lo: uint8, hi': nat, lo': uint8)
    ensures And(256 * hi + lo, 256 * hi' + lo') == 256 * And(hi, hi') + And(lo, lo')
    ensures Or(256 * hi + lo, 256 * hi' + lo') == 256 * Or(hi, hi') + Or(lo, lo')
    ensures And(lo, lo') < 256 && Or(lo, lo') < 256
  {
    hide And, Or, Cat;
    assert Pow2(8) == 256;
    CatSizes(hi, lo);
    CatSizes(hi', lo');
    ByteResult(8, lo, lo');
    AndCat(8, hi, lo, hi', lo');
    OrCat(8, hi, lo, hi', lo');
    CatSizes(And(hi, hi'), And(lo, lo'));
    CatSizes(Or(hi, hi'), Or(lo, lo'));
  }

  lemma {:induction false} ByteResult(k: nat, a: nat, b: nat)
    requires a < Pow2(k) && b < Pow2(k)
    ensures And(a, b) < Pow2(k) && Or(a, b) < Pow2(k)
  {
    if k > 0 {
      ByteResult(k - 1, a / 2, b / 2);
      HalveAnd(a, b);
      HalveOr(a, b);
    }
  }

  lemma {:induction false} AndOnes(k: nat, a: nat)
    requires a < Pow2(k)
    ensures And(a, Pow2(k) - 1) == a
  {
    if k > 0 {
      AndOnes(k - 1, a / 2);
      HalveAnd(a, Pow2(k) - 1);
      assert (Pow2(k) - 1) / 2 == Pow2(k - 1) - 1;
    }
  }

  /** What the constant byte masks do. */
  lemma MaskByte(b: uint8)
    ensures And(b, 0xff) == b && And(b, 0) == 0 && Or(b, 0) == b && Or(0, b) == b
  {
    assert Pow2(8) == 256;
    AndOnes(8, b);
  }

  lemma SixBits()
    ensures Pow2(6) == 64
  {}

  lemma AndZero(a: nat)
    ensures And(a, 0) == 0
  {}

  lemma MaskFc(h: nat, l: nat)
    requires h < 64 && l < 4
    ensures And(4 * h + l, 0xfc) == 4 * h
  {
    hide *;
    SixBits();
    AndOnes(6, h);
    AndZero(l);
    AndCat(2, h, l, 63, 0);
    CatSizes(h, l);
    CatSizes(63, 0);
    CatSizes(h, 0);
  }

  lemma MaskByteFc(b: uint8)
    ensures And(b, 0xfc) == b - b % 4
  {
    hide And;
    MaskFc(b / 4, b % 4);
  }

  function Keep(b: uint8, m: uint8): uint8 {
    if m == 0 then 0 else b
  }

  lemma MaskKeeps(b: uint8, m: uint8)
    requires m in {0, 0xff}
    ensures And(b, m) == Keep(b, m)
  {
    hide And;
    MaskByte(b);
  }

  /** A constant mask of whole bytes keeps or clears each byte of a dword. */
  lemma MaskLanes(l: Lanes, m: Lanes)
    requires m.b0 in {0, 0xff} && m.b1 in {0, 0xff} && m.b2 in {0, 0xff} && m.b3 in {0, 0xff}
    ensures And(Num(l), Num(m))
            == Num(Lanes(Keep(l.b0, m.b0), Keep(l.b1, m.b1), Keep(l.b2, m.b2), Keep(l.b3, m.b3)))
  {
    hide And, Or, Keep;
    Bytewise(l, m);
    MaskKeeps(l.b0, m.b0);
    MaskKeeps(l.b1, m.b1);
    MaskKeeps(l.b2, m.b2);
    MaskKeeps(l.b3, m.b3);
  }

  /** Or-ing dwords with no common non-zero byte. */
  lemma OrLanes(l: Lanes, m: Lanes)
    requires (l.b0 == 0 || m.b0 == 0) && (l.b1 == 0 || m.b1 == 0)
    requires (l.b2 == 0 || m.b2 == 0) && (l.b3 == 0 || m.b3 == 0)
    ensures Or(Num(l), Num(m)) == Num(Lanes(l.b0 + m.b0, l.b1 + m.b1, l.b2 + m.b2, l.b3 + m.b3))
  {
    hide *;
    OrDisjoint(l.b0, m.b0);
    OrDisjoint(l.b1, m.b1);
    OrDisjoint(l.b2, m.b2);
    OrDisjoint(l.b3, m.b3);
    OrOfLanes(l, m, Lanes(l.b0 + m.b0, l.b1 + m.b1, l.b2 + m.b2, l.b3 + m.b3));
  }

  lemma OrOfLanes(l: Lanes, m: Lanes, s: Lanes)
    requires Or(l.b0, m.b0) == s.b0 && Or(l.b1, m.b1) == s.b1 && Or(l.b2, m.b2) == s.b2 && Or(l.b3, m.b3) == s.b3
    ensures Or(Num(l), Num(m)) == Num(s)
  {
    hide And, Or;
    Bytewise(l, m);
  }

  lemma OrDisjoint(a: nat, b: nat)
    requires a == 0 || b == 0
    ensures Or(a, b) == a + b
  {
    hide Or;
    OrZero(a);
    OrZero(b);
  }

  // ---------- the masks and ors of the sources ----------

  lemma ClearLowTwo(l: Lanes)
    ensures And(Num(l), 0xffff_fffc) == Num(l) - l.b0 % 4
  {
    hide And, Or;
    Bytewise(l, Lanes(0xfc, 0xff, 0xff, 0xff));
    MaskByteFc(l.b0);
    MaskByte(l.b1);
    MaskByte(l.b2);
    MaskByte(l.b3);
  }

  lemma ClearLowByte(l: Lanes)
    ensures And(Num(l), 0xffff_ff00) == Num(l) - l.b0
  {
    hide And, Or;
    MaskLanes(l, Lanes(0, 0xff, 0xff, 0xff));
  }

  /** addr & 0xfffffffc and addr & ~(256 - 1), the two address alignments. */
  lemma AlignMasks(addr: uint32)
    ensures And(addr, 0xffff_fffc) == addr - addr % 4
    ensures And(addr, 0xffff_ff00) == addr - addr % 256
  {
    hide *;
    NumSplit(addr);
    ClearLowTwo(Split(addr));
    ClearLowByte(Split(addr));
    LowByte(addr);
  }

  lemma LowByte(v: uint32)
    ensures Split(v).b0 == v % 256 && Split(v).b0 % 4 == v % 4
  {
    var q, r := v / 256, v % 256;
    assert Split(v).b0 == r;
    hide Split;
    Divided(v, 4, 64 * q + r / 4, r % 4);
  }

  lemma EightBits()
    ensures Pow2(8) == 0x100
  {}

  lemma AndSmallMask(k: nat, h: nat, l: nat)
    requires l < Pow2(k) && Pow2(k) >= 1
    ensures And(Cat(k, h, l), Cat(k, 0, Pow2(k) - 1)) == Cat(k, 0, l)
  {
    hide And, Cat, Pow2;
    AndCat(k, h, l, 0, Pow2(k) - 1);
    AndOnes(k, l);
    AndZero(h);
  }

  /** The masks 0x07, 0x1f and 0x0fff are remainders. */
  lemma AndLowBits(v: nat)
    ensures And(v, 0x07) == v % 8 && And(v, 0x1f) == v % 32 && And(v, 0x0fff) == v % 4096
  {
    assert Pow2(3) == 8 && Pow2(5) == 32 && Pow2(12) == 4096 by { FieldPowers(); }
    hide *;
    And07(v / 8, v % 8);
    And1f(v / 32, v % 32);
    And0fff(v / 4096, v % 4096);
  }

  lemma And07(h: nat, l: nat)
    requires l < 8 && Pow2(3) == 8
    ensures And(8 * h + l, 0x07) == l
  {
    hide *;
    AndSmallMask(3, h, l);
    CatFields(h, l);
    CatFields(0, 7);
    CatFields(0, l);
  }

  lemma And1f(h: nat, l: nat)
    requires l < 32 && Pow2(5) == 32
    ensures And(32 * h + l, 0x1f) == l
  {
    hide *;
    AndSmallMask(5, h, l);
    CatFields(h, l);
    CatFields(0, 31);
    CatFields(0, l);
  }

  lemma And0fff(h: nat, l: nat)
    requires l < 4096 && Pow2(12) == 4096
    ensures And(4096 * h + l, 0x0fff) == l
  {
    hide *;
    AndSmallMask(12, h, l);
    CatTwelve(h, l);
    CatTwelve(0, 4095);
    CatTwelve(0, l);
  }

  lemma FieldPowers()
    ensures Pow2(3) == 8 && Pow2(5) == 32 && Pow2(12) == 4096
  {
    assert Pow2(6) == 64 && Pow2(9) == 512;
  }

  /** Or-ing a field into the freshly shifted-in zeros is addition. */
  lemma OrField(hi: nat, lo: nat)
    ensures lo < 8 ==> Or(8 * hi, lo) == 8 * hi + lo
    ensures lo < 32 ==> Or(32 * hi, lo) == 32 * hi + lo
  {
    hide Or, Cat;
    OrZero(hi);
    OrZero(lo);
    CatFields(hi, 0);
    CatFields(0, lo);
    CatFields(hi, lo);
    OrCat(3, hi, 0, 0, lo);
    OrCat(5, hi, 0, 0, lo);
  }

  lemma OrRegister(hi: nat, lo: nat)
    requires lo < 4096
    ensures Or(4096 * hi, lo) == 4096 * hi + lo
  {
    hide Or, Cat;
    OrZero(hi);
    OrZero(lo);
    CatTwelve(hi, 0);
    CatTwelve(0, lo);
    CatTwelve(hi, lo);
    OrCat(12, hi, 0, 0, lo);
  }

  lemma OrZero(a: nat)
    ensures Or(a, 0) == a && Or(0, a) == a
  {}
}
