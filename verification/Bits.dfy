/** Bitwise operations on naturals, defined bit by bit from the least significant end. */
module Bits {
  function XorBit(x: nat, y: nat): nat { if x == y then 0 else 1 }

  /** Exclusive or. */
  function Xor(a: nat, b: nat): nat
    decreases a + b
  {
    if a == 0 && b == 0 then 0 else XorBit(a % 2, b % 2) + 2 * Xor(a / 2, b / 2)
  }

  lemma XorUnfold(a: nat, b: nat)
    ensures Xor(a, b) == XorBit(a % 2, b % 2) + 2 * Xor(a / 2, b / 2)
  {
  }

  lemma Halves(x: nat, bit: nat, rest: nat)
    requires x == bit + 2 * rest && bit < 2
    ensures x % 2 == bit && x / 2 == rest
  {
  }

  lemma XorStep(a: nat, b: nat)
    ensures Xor(a, b) == XorBit(a % 2, b % 2) + 2 * Xor(a / 2, b / 2)
    ensures Xor(a, b) % 2 == XorBit(a % 2, b % 2)
    ensures Xor(a, b) / 2 == Xor(a / 2, b / 2)
  {
    XorUnfold(a, b);
    Halves(Xor(a, b), XorBit(a % 2, b % 2), Xor(a / 2, b / 2));
  }

  lemma {:induction false} XorCommutes(a: nat, b: nat)
    ensures Xor(a, b) == Xor(b, a)
    decreases a + b
  {
    if a + b != 0 {
      XorCommutes(a / 2, b / 2);
      XorStep(a, b);
      XorStep(b, a);
    }
  }

  lemma {:induction false} XorAssociates(a: nat, b: nat, c: nat)
    ensures Xor(a, Xor(b, c)) == Xor(Xor(a, b), c)
    decreases a + b + c
  {
    if a + b + c != 0 {
      XorAssociates(a / 2, b / 2, c / 2);
      XorStep(b, c);
      XorStep(a, b);
      XorStep(a, Xor(b, c));
      XorStep(Xor(a, b), c);
    }
  }

  lemma XorLaws(a: nat, b: nat, c: nat)
    ensures Xor(a, b) == Xor(b, a)
    ensures Xor(a, Xor(b, c)) == Xor(Xor(a, b), c)
  {
    XorCommutes(a, b);
    XorAssociates(a, b, c);
  }

  lemma {:induction false} XorCancels(a: nat)
    ensures Xor(a, 0) == a && Xor(0, a) == a && Xor(a, a) == 0
  {
    if a != 0 { XorCancels(a / 2); }
  }

  function Pow2(k: nat): (p: nat)
    ensures p > 0
  {
    if k == 0 then 1 else 2 * Pow2(k - 1)
  }

  lemma {:induction false} Pow2Adds(j: nat, k: nat)
    ensures Pow2(j + k) == Pow2(j) * Pow2(k)
  {
    if j != 0 { Pow2Adds(j - 1, k); }
  }

  lemma {:induction false} XorBelow(a: nat, b: nat, bits: nat)
    requires a < Pow2(bits) && b < Pow2(bits)
    ensures Xor(a, b) < Pow2(bits)
  {
    if bits != 0 && (a != 0 || b != 0) { XorBelow(a / 2, b / 2, bits - 1); }
  }

  function OrBit(x: nat, y: nat): nat { if x == 0 && y == 0 then 0 else 1 }

  /** Inclusive or. */
  function Or(a: nat, b: nat): nat
    decreases a + b
  {
    if a == 0 && b == 0 then 0 else OrBit(a % 2, b % 2) + 2 * Or(a / 2, b / 2)
  }

  lemma {:induction false} OrBelow(a: nat, b: nat, bits: nat)
    requires a < Pow2(bits) && b < Pow2(bits)
    ensures Or(a, b) < Pow2(bits)
  {
    if bits != 0 && (a != 0 || b != 0) { OrBelow(a / 2, b / 2, bits - 1); }
  }

  lemma {:induction false} OrZero(a: nat)
    ensures Or(a, 0) == a
  {
    if a != 0 { OrZero(a / 2); }
  }

  lemma HalfOfShifted(high: nat, bits: nat)
    requires bits > 0
    ensures (high * Pow2(bits)) % 2 == 0 && (high * Pow2(bits)) / 2 == high * Pow2(bits - 1)
  {
    assert high * Pow2(bits) == 2 * (high * Pow2(bits - 1));
  }

  lemma OrUnfold(a: nat, b: nat)
    ensures Or(a, b) == OrBit(a % 2, b % 2) + 2 * Or(a / 2, b / 2)
  {
  }

  /** A word shifted left past another joins it without carry: or is plus. */
  lemma {:induction false} OrOfDisjointWords(high: nat, low: nat, bits: nat)
    requires low < Pow2(bits)
    ensures Or(high * Pow2(bits), low) == high * Pow2(bits) + low
    decreases bits
  {
    if bits == 0 {
      OrZero(high);
    } else {
      HalfOfShifted(high, bits);
      OrUnfold(high * Pow2(bits), low);
      OrOfDisjointWords(high, low / 2, bits - 1);
    }
  }

  /** The k-th bit. */
  function Bit(x: nat, k: nat): nat { if k == 0 then x % 2 else Bit(x / 2, k - 1) }

  lemma {:induction false} XorOfBits(a: nat, b: nat, k: nat)
    ensures Bit(Xor(a, b), k) == XorBit(Bit(a, k), Bit(b, k))
    decreases k
  {
    XorStep(a, b);
    if k != 0 { XorOfBits(a / 2, b / 2, k - 1); }
  }

  /** Setting one bit changes nothing if it is set, and adds its weight otherwise. */
  lemma {:induction false} OrOfOneBit(x: nat, k: nat)
    ensures Or(x, Pow2(k)) == if Bit(x, k) == 1 then x else x + Pow2(k)
    decreases k
  {
    OrUnfold(x, Pow2(k));
    if k == 0 {
      OrZero(x / 2);
    } else {
      OrOfOneBit(x / 2, k - 1);
    }
  }
}
