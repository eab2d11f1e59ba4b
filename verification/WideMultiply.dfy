/** Catch2's portable 64 by 64 to 128 bit multiplication, in explicitly wrapping 64-bit arithmetic. */
module WideMultiply {
  import opened Bits

  const B32: nat := 0x1_0000_0000
  const B64: nat := 0x1_0000_0000_0000_0000

  type Word = w: nat | w < B64

  /** 64-bit addition, multiplication and left shift by 32, each dropping what overflows. */
  function Add(a: Word, b: Word): Word { (a + b) % B64 }
  function Mul(a: Word, b: Word): Word { (a * b) % B64 }
  function ShiftLeft32(a: Word): Word { (a * B32) % B64 }

  function BitOr(a: Word, b: Word): Word
  {
    BitOrInRange(a, b);
    Or(a, b)
  }

  lemma DoubleBits(n: nat, size: nat) returns (m: nat)
    requires Pow2(n) == size
    ensures m == n + n && Pow2(m) == size * size
  {
    m := n + n;
    Pow2Adds(n, n);
  }

  lemma NibbleBits() returns (n: nat)
    ensures n == 4 && Pow2(n) == 0x10
  {
    n := 4;
  }

  /** The number of bits in half a word. */
  lemma HalfWordBits() returns (n: nat)
    ensures n == 32 && Pow2(n) == B32 && Pow2(n + n) == B64
  {
    n := NibbleBits();
    n := DoubleBits(n, 0x10);
    n := DoubleBits(n, 0x100);
    n := DoubleBits(n, 0x1_0000);
    var word := DoubleBits(n, B32);
  }

  lemma BitOrInRange(a: Word, b: Word)
    ensures Or(a, b) < B64
  {
    var n := HalfWordBits();
    OrBelow(a, b, n + n);
  }

  function CarryBits(x: Word): Word { x / B32 }
  function Digits(x: Word): Word { x % B32 }

  datatype Product = Product(upper: Word, lower: Word)

  function LowLow(lhs: Word, rhs: Word): Word { Mul(Digits(lhs), Digits(rhs)) }
  function HighHigh(lhs: Word, rhs: Word): Word { Mul(CarryBits(lhs), CarryBits(rhs)) }

  function HighLow(lhs: Word, rhs: Word): Word
  {
    Add(Mul(CarryBits(lhs), Digits(rhs)), CarryBits(LowLow(lhs, rhs)))
  }

  function LowHigh(lhs: Word, rhs: Word): Word
  {
    Add(Mul(Digits(lhs), CarryBits(rhs)), Digits(HighLow(lhs, rhs)))
  }

  function ExtendedMultPortable(lhs: Word, rhs: Word): Product
  {
    var highLow, lowHigh := HighLow(lhs, rhs), LowHigh(lhs, rhs);
    Product(Add(Add(HighHigh(lhs, rhs), CarryBits(highLow)), CarryBits(lowHigh)),
            BitOr(ShiftLeft32(lowHigh), Digits(LowLow(lhs, rhs))))
  }

  lemma MulMonotone(a: nat, b: nat, m: nat)
    requires a <= m && b <= m
    ensures a * b <= m * m
  {
  }

  lemma Fits(x: nat)
    requires x < B64
    ensures x % B64 == x
  {
  }

  lemma SplitsInHalf(x: Word)
    ensures x == CarryBits(x) * B32 + Digits(x) && CarryBits(x) <= B32 - 1 && Digits(x) <= B32 - 1
  {
  }

  /** A product of two halves leaves room for one more half. */
  lemma HalvesProduct(a: nat, b: nat)
    requires a <= B32 - 1 && b <= B32 - 1
    ensures a * b <= B64 - 2 * B32 + 1 && a * b % B64 == a * b
  {
    MulMonotone(a, b, B32 - 1);
    assert (B32 - 1) * (B32 - 1) == B64 - 2 * B32 + 1;
    Fits(a * b);
  }

  /** None of the intermediate sums and products of halves overflows 64 bits. */
  lemma NoIntermediateOverflow(lhs: Word, rhs: Word)
    ensures var a, b, c, d := CarryBits(lhs), Digits(lhs), CarryBits(rhs), Digits(rhs);
            && LowLow(lhs, rhs) == b * d && HighHigh(lhs, rhs) == a * c
            && HighLow(lhs, rhs) == a * d + LowLow(lhs, rhs) / B32
            && LowHigh(lhs, rhs) == b * c + HighLow(lhs, rhs) % B32
  {
    var a, b, c, d := CarryBits(lhs), Digits(lhs), CarryBits(rhs), Digits(rhs);
    SplitsInHalf(lhs);
    SplitsInHalf(rhs);
    HalvesProduct(b, d);
    HalvesProduct(a, c);
    HalvesProduct(a, d);
    HalvesProduct(b, c);
    SplitsInHalf(LowLow(lhs, rhs));
    Fits(a * d + CarryBits(LowLow(lhs, rhs)));
    SplitsInHalf(HighLow(lhs, rhs));
    Fits(b * c + Digits(HighLow(lhs, rhs)));
  }

  lemma ProductBelow(lhs: Word, rhs: Word)
    ensures lhs * rhs < B64 * B64
  {
    MulMonotone(lhs, rhs, B64 - 1);
    assert (B64 - 1) * (B64 - 1) < B64 * B64;
  }

  datatype Parts = Parts(hh: nat, ll: nat, hl: nat, lh: nat)

  function Upper(p: Parts): nat { p.hh + p.hl / B32 + p.lh / B32 }
  function Lower(p: Parts): nat { (p.lh * B32) % B64 + p.ll % B32 }

  /** With the carries split off, the parts recombine to the full product, and both words fit. */
  lemma Recombine(p: Parts, x: nat, y: nat, product: nat)
    requires p.hl == x + p.ll / B32 && p.lh == y + p.hl % B32
    requires product == p.hh * B64 + (x + y) * B32 + p.ll < B64 * B64
    ensures Upper(p) * B64 + Lower(p) == product
    ensures Lower(p) < B64 && Upper(p) < B64
  {
  }

  lemma ProductOfHalves(lhs: Word, rhs: Word)
    ensures lhs * rhs
            == CarryBits(lhs) * CarryBits(rhs) * B64
               + (CarryBits(lhs) * Digits(rhs) + Digits(lhs) * CarryBits(rhs)) * B32 + Digits(lhs) * Digits(rhs)
  {
  }

  function PartsOf(lhs: Word, rhs: Word): Parts
  {
    Parts(HighHigh(lhs, rhs), LowLow(lhs, rhs), HighLow(lhs, rhs), LowHigh(lhs, rhs))
  }

  lemma ShiftKeepsLowHalf(a: Word)
    ensures ShiftLeft32(a) == Digits(a) * B32
  {
    SplitsInHalf(a);
    assert a * B32 == CarryBits(a) * B64 + Digits(a) * B32;
  }

  /** The shifted word has its low half clear, so the final bitwise or is a sum. */
  lemma OrJoinsHalves(a: Word, b: Word)
    ensures BitOr(ShiftLeft32(a), Digits(b)) == ShiftLeft32(a) + Digits(b)
  {
    var n := HalfWordBits();
    ShiftKeepsLowHalf(a);
    OrOfDisjointWords(Digits(a), Digits(b), n);
  }

  lemma WordsAreUpperAndLower(lhs: Word, rhs: Word)
    requires Upper(PartsOf(lhs, rhs)) < B64 && Lower(PartsOf(lhs, rhs)) < B64
    ensures ExtendedMultPortable(lhs, rhs) == Product(Upper(PartsOf(lhs, rhs)), Lower(PartsOf(lhs, rhs)))
  {
    var p := PartsOf(lhs, rhs);
    SumsFit(p.hh, CarryBits(p.hl), CarryBits(p.lh), Upper(p));
    OrJoinsHalves(p.lh, p.ll);
  }

  /** The cross terms that make the parts those of the full product. */
  lemma CrossTerms(lhs: Word, rhs: Word) returns (x: nat, y: nat)
    ensures var p := PartsOf(lhs, rhs);
            && p.hl == x + p.ll / B32 && p.lh == y + p.hl % B32
            && lhs * rhs == p.hh * B64 + (x + y) * B32 + p.ll
  {
    x, y := CarryBits(lhs) * Digits(rhs), Digits(lhs) * CarryBits(rhs);
    NoIntermediateOverflow(lhs, rhs);
    ProductOfHalves(lhs, rhs);
  }

  lemma ExactFrom(p: Parts, lhs: Word, rhs: Word)
    requires p == PartsOf(lhs, rhs)
    requires Upper(p) * B64 + Lower(p) == lhs * rhs && Upper(p) < B64 && Lower(p) < B64
    ensures var r := ExtendedMultPortable(lhs, rhs); r.upper * B64 + r.lower == lhs * rhs
  {
    WordsAreUpperAndLower(lhs, rhs);
  }

  /** For all 64-bit operands the two words are exactly the 128-bit product. */
  lemma ExtendedMultIsExact(lhs: Word, rhs: Word)
    ensures var r := ExtendedMultPortable(lhs, rhs); r.upper * B64 + r.lower == lhs * rhs
  {
    var x, y := CrossTerms(lhs, rhs);
    var p := PartsOf(lhs, rhs);
    ProductBelow(lhs, rhs);
    Recombine(p, x, y, lhs * rhs);
    ExactFrom(p, lhs, rhs);
  }

  lemma SumsFit(x: Word, y: Word, z: Word, sum: nat)
    requires sum == x + y + z < B64
    ensures Add(Add(x, y), z) == sum
  {
  }
}
