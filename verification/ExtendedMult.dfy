/** 64 x 64 -> 128 bit multiplication out of 64-bit operations. */
module ExtendedMult {

  const B: nat := 0x1_0000_0000
  const W: nat := 0x1_0000_0000_0000_0000

  type uint64 = x: int | 0 <= x < W

  datatype Product = Product(upper: uint64, lower: uint64)

  // Unsigned 64-bit operations, with their wrap-around.

  function Plus(x: uint64, y: uint64): uint64 { (x + y) % W }

  function Times(x: uint64, y: uint64): uint64 { (x * y) % W }

  function CarryBits(x: uint64): uint64 { x / B }

  function Digits(x: uint64): uint64 { x % B }

  function ShiftLeft32(x: uint64): uint64 { (x * B) % W }

  /** x | y where the set bits of x lie above bit 31 and those of y below. */
  function OrLow(x: uint64, y: uint64): uint64
    requires x % B == 0 && y < B
  {
    assert x + y < W by { assert x == B * (x / B); }
    x + y
  }

  /** ... which is their sum, as on the machine's words. */
  lemma OrOfDisjointBits(x: bv64, y: bv64)
    requires x & 0xffff_ffff == 0 && y & 0xffff_ffff == y
    ensures x | y == x + y
  {}

  lemma ShiftLeavesLowBitsClear(x: uint64)
    ensures ShiftLeft32(x) == x % B * B
    ensures ShiftLeft32(x) % B == 0
  {
    assert x * B == W * (x / B) + x % B * B;
  }

  function ExtendedMultPortable(lhs: uint64, rhs: uint64): Product
  {
    Combined(Times(Digits(lhs), Digits(rhs)),
             Times(CarryBits(lhs), CarryBits(rhs)),
             Times(CarryBits(lhs), Digits(rhs)),
             Times(Digits(lhs), CarryBits(rhs)))
  }

  /** The sum of the four partial products, carried in halves. */
  function Combined(lowLow: uint64, highHigh: uint64, highTimesLow: uint64, lowTimesHigh: uint64): Product
  {
    var highLow := Plus(highTimesLow, CarryBits(lowLow));
    var lowHigh := Plus(lowTimesHigh, Digits(highLow));
    ShiftLeavesLowBitsClear(lowHigh);
    Product(Plus(Plus(highHigh, CarryBits(highLow)), CarryBits(lowHigh)),
            OrLow(ShiftLeft32(lowHigh), Digits(lowLow)))
  }

  /** The version for platforms with 128-bit integers. */
  function ExtendedMult128(lhs: uint64, rhs: uint64): Product
  {
    UpperFits(lhs, rhs);
    Product(lhs * rhs / W, lhs * rhs % W)
  }

  lemma UpperFits(x: uint64, y: uint64)
    ensures 0 <= x * y && 0 <= x * y / W < W
  {
    HalvesBound(x, y, W);
  }

  lemma HalvesBound(x: nat, y: nat, m: nat)
    requires m > 0 && x < m && y < m
    ensures x * y <= (m - 1) * (m - 1)
  {
    assert x * y <= (m - 1) * y <= (m - 1) * (m - 1);
  }

  /** The product of two halves needs no wrap-around, with room for two carries. */
  lemma HalvesMultiply(x: uint64, y: uint64)
    requires x < B && y < B
    ensures Times(x, y) == x * y <= (B - 1) * (B - 1)
  {
    HalvesBound(x, y, B);
  }

  lemma NoWrap(x: uint64, y: uint64)
    requires x + y < W
    ensures Plus(x, y) == x + y
  {}

  lemma Carry(ll: nat, hh: nat, hl: nat, lh: nat, c: nat, d: nat, h1: nat, h0: nat, k1: nat, k0: nat)
    requires ll == c * B + d && hl + c == h1 * B + h0 && lh + h0 == k1 * B + k0
    ensures (hh + h1 + k1) * W + k0 * B + d == hh * W + (hl + lh) * B + ll
  {}

  /** No sum overflows, and carrying in halves loses nothing. */
  lemma CarriesAddUp(ll: uint64, hh: uint64, hl: uint64, lh: uint64)
    requires ll <= (B - 1) * (B - 1) && hh <= (B - 1) * (B - 1)
    requires hl <= (B - 1) * (B - 1) && lh <= (B - 1) * (B - 1)
    ensures hl + ll / B < W && lh + (hl + ll / B) % B < W
    ensures hh + (hl + ll / B) / B + (lh + (hl + ll / B) % B) / B < W
    ensures var r := Combined(ll, hh, hl, lh); r.upper * W + r.lower == hh * W + (hl + lh) * B + ll
  {
    var c, d := ll / B, ll % B;
    NoWrap(hl, c);
    var highLow := hl + c;
    var h1, h0 := highLow / B, highLow % B;
    NoWrap(lh, h0);
    var lowHigh := lh + h0;
    var k1, k0 := lowHigh / B, lowHigh % B;
    assert h1 < B && k1 < B;
    NoWrap(hh, h1);
    NoWrap(hh + h1, k1);
    ShiftLeavesLowBitsClear(lowHigh);
    assert Combined(ll, hh, hl, lh) == Product(hh + h1 + k1, k0 * B + d);
    Carry(ll, hh, hl, lh, c, d, h1, h0, k1, k0);
  }

  /** The portable version computes the whole product, for all arguments. */
  lemma ProductExact(lhs: uint64, rhs: uint64)
    ensures var r := ExtendedMultPortable(lhs, rhs); r.upper * W + r.lower == lhs * rhs
  {
    var (ah, al, bh, bl) := (CarryBits(lhs), Digits(lhs), CarryBits(rhs), Digits(rhs));
    HalvesMultiply(al, bl);
    HalvesMultiply(ah, bh);
    HalvesMultiply(ah, bl);
    HalvesMultiply(al, bh);
    CarriesAddUp(Times(al, bl), Times(ah, bh), Times(ah, bl), Times(al, bh));
    SplitProduct(lhs, rhs);
  }

  lemma SplitProduct(lhs: uint64, rhs: uint64)
    ensures var (ah, al, bh, bl) := (CarryBits(lhs), Digits(lhs), CarryBits(rhs), Digits(rhs));
            lhs * rhs == ah * bh * W + (ah * bl + al * bh) * B + al * bl
  {
    assert lhs == CarryBits(lhs) * B + Digits(lhs) && rhs == CarryBits(rhs) * B + Digits(rhs);
    SchoolProduct(CarryBits(lhs), Digits(lhs), CarryBits(rhs), Digits(rhs));
  }

  lemma SchoolProduct(ah: nat, al: nat, bh: nat, bl: nat)
    ensures (ah * B + al) * (bh * B + bl) == ah * bh * W + (ah * bl + al * bh) * B + al * bl
  {
    assert (ah * B + al) * (bh * B + bl) == ah * B * (bh * B + bl) + al * (bh * B + bl);
    assert ah * B * (bh * B + bl) == ah * B * (bh * B) + ah * B * bl;
    assert ah * B * (bh * B) == ah * bh * (B * B);
    assert al * (bh * B + bl) == al * bh * B + al * bl;
  }

  /** Both versions agree. */
  lemma PortableIs128(lhs: uint64, rhs: uint64)
    ensures ExtendedMultPortable(lhs, rhs) == ExtendedMult128(lhs, rhs)
  {
    ProductExact(lhs, rhs);
    var r := ExtendedMultPortable(lhs, rhs);
    QuotientUnique(lhs * rhs, r.upper, r.lower);
  }

  lemma QuotientUnique(x: nat, q: nat, r: uint64)
    requires x == q * W + r
    ensures x / W == q && x % W == r
  {}
}
