/** Polynomial arithmetic on bytes modulo a degree-eight polynomial `m`.

    The same algebra serves two fields of the program: `m == 0x11D` for the QR
    encoder and `m == 0x11B` for AES. */
module ByteField {
  import opened Bits

  /** The reduction polynomial with its leading term, 0x100 to 0x1FF. */
  type Modulus = m: nat | 256 <= m < 512 witness 256

  /** Multiplication by x: shift left, reduce when the ninth bit appears. */
  function Double(m: Modulus, a: Byte): (r: Byte) {
    if 2 * a >= 256 then
      Pow2Values();
      XorTopBit(2 * a, m, 8);
      Xor(2 * a, m)
    else 2 * a
  }

  /** Schoolbook product: the sum of `a * x^i` over the set bits i of `b`. */
  function Product(m: Modulus, a: Byte, b: Byte): (r: Byte)
    decreases b
  {
    if b == 0 then 0
    else XorByte(if b % 2 == 1 then a else 0, Product(m, Double(m, a), b / 2))
  }

  /** Repeated multiplication by x. */
  function Shift(m: Modulus, a: Byte, i: nat): Byte {
    if i == 0 then a else Double(m, Shift(m, a, i - 1))
  }

  lemma DoubleXor(m: Modulus, a: Byte, b: Byte)
    ensures Double(m, XorByte(a, b)) == Xor(Double(m, a), Double(m, b))
  {
    Pow2Values();
    XorTopBit(a, b, 7);
    XorDouble(a, b);
    if a >= 128 && b >= 128 {
      XorSwap(2 * a, m, 2 * b, m);
      XorSelf(m);
    } else if a >= 128 {
      XorSwap(2 * a, m, 2 * b, 0);
    } else if b >= 128 {
      XorSwap(2 * a, 0, 2 * b, m);
    }
  }

  /** Multiplication by x loses nothing when the modulus has a constant term. */
  lemma DoubleInjective(m: Modulus, a: Byte, b: Byte)
    requires m % 2 == 1
    requires Double(m, a) == Double(m, b)
    ensures a == b
  {
    XorHalf(2 * a, m);
    XorHalf(2 * b, m);
    if a >= 128 && b >= 128 {
      XorCancel(2 * a, m);
      XorCancel(2 * b, m);
    }
  }

  lemma ProductStep(m: Modulus, a: Byte, b: Byte)
    ensures Product(m, a, b)
         == Xor(if b % 2 == 1 then a else 0, Product(m, Double(m, a), b / 2))
  {
  }

  lemma {:induction false} ProductXorLeft(m: Modulus, a: Byte, b: Byte, c: Byte)
    ensures Product(m, XorByte(a, b), c) == Xor(Product(m, a, c), Product(m, b, c))
    decreases c
  {
    if c != 0 {
      DoubleXor(m, a, b);
      ProductXorLeft(m, Double(m, a), Double(m, b), c / 2);
      XorSwap(if c % 2 == 1 then a else 0, Product(m, Double(m, a), c / 2),
              if c % 2 == 1 then b else 0, Product(m, Double(m, b), c / 2));
    }
  }

  lemma {:induction false} ProductXorRight(m: Modulus, a: Byte, b: Byte, c: Byte)
    ensures Product(m, a, XorByte(b, c)) == Xor(Product(m, a, b), Product(m, a, c))
    decreases b + c
  {
    if b + c != 0 {
      var d := Double(m, a);
      ProductXorRight(m, d, b / 2, c / 2);
      XorHalf(b, c);
      ProductStep(m, a, XorByte(b, c));
      ProductStep(m, a, b);
      ProductStep(m, a, c);
      XorSwap(if b % 2 == 1 then a else 0, Product(m, d, b / 2),
              if c % 2 == 1 then a else 0, Product(m, d, c / 2));
      XorSelf(a);
    }
  }

  lemma {:induction false} ProductDoubleLeft(m: Modulus, a: Byte, b: Byte)
    ensures Product(m, Double(m, a), b) == Double(m, Product(m, a, b))
    decreases b
  {
    if b != 0 {
      ProductDoubleLeft(m, Double(m, a), b / 2);
      DoubleXor(m, if b % 2 == 1 then a else 0, Product(m, Double(m, a), b / 2));
    }
  }

  lemma {:induction false} ProductShiftLeft(m: Modulus, a: Byte, b: Byte, i: nat)
    ensures Product(m, Shift(m, a, i), b) == Shift(m, Product(m, a, b), i)
  {
    if i > 0 {
      ProductShiftLeft(m, a, b, i - 1);
      ProductDoubleLeft(m, Shift(m, a, i - 1), b);
    }
  }

  lemma {:induction false} ShiftInside(m: Modulus, a: Byte, i: nat)
    ensures Shift(m, Double(m, a), i) == Shift(m, a, i + 1)
  {
    if i > 0 {
      ShiftInside(m, a, i - 1);
    }
  }

  lemma ProductUnit(m: Modulus, a: Byte)
    ensures Product(m, a, 1) == a
    ensures Product(m, a, 0) == 0
  {
  }

  lemma {:induction false} ProductZeroLeft(m: Modulus, b: Byte)
    ensures Product(m, 0, b) == 0
    decreases b
  {
    if b != 0 {
      ProductZeroLeft(m, b / 2);
    }
  }

  /** A byte is its lowest bit plus x times the rest. */
  lemma SplitLowBit(m: Modulus, b: Byte)
    ensures b == Xor(b % 2, Double(m, b / 2))
  {
    XorStep(b % 2, 2 * (b / 2));
  }

  lemma ProductLowBit(m: Modulus, a: Byte, b: Byte)
    ensures Product(m, a, b)
         == Xor(if b % 2 == 1 then a else 0, Double(m, Product(m, a, b / 2)))
  {
    ProductStep(m, a, b);
    ProductDoubleLeft(m, a, b / 2);
  }

  lemma {:induction false} ProductUnitLeft(m: Modulus, b: Byte)
    ensures Product(m, 1, b) == b
    decreases b
  {
    if b != 0 {
      ProductUnitLeft(m, b / 2);
      ProductLowBit(m, 1, b);
      SplitLowBit(m, b);
    }
  }

  lemma {:induction false} ProductComm(m: Modulus, a: Byte, b: Byte)
    ensures Product(m, a, b) == Product(m, b, a)
    decreases b
  {
    ProductZeroLeft(m, a);
    if b != 0 {
      var low: Byte := b % 2;
      ProductComm(m, a, b / 2);
      ProductLowBit(m, a, b);
      ProductDoubleLeft(m, b / 2, a);
      ProductUnitLeft(m, a);
      ProductXorLeft(m, low, Double(m, b / 2), a);
      SplitLowBit(m, b);
    }
  }

  lemma ProductDoubleRight(m: Modulus, a: Byte, b: Byte)
    ensures Product(m, a, Double(m, b)) == Double(m, Product(m, a, b))
  {
    ProductComm(m, a, Double(m, b));
    ProductDoubleLeft(m, b, a);
    ProductComm(m, a, b);
  }

  lemma {:induction false} ProductAssoc(m: Modulus, a: Byte, b: Byte, c: Byte)
    ensures Product(m, Product(m, a, b), c) == Product(m, a, Product(m, b, c))
    decreases c
  {
    if c != 0 {
      var high: Byte := Product(m, b, c / 2);
      var low: Byte := if c % 2 == 1 then b else 0;
      ProductAssoc(m, a, b, c / 2);
      ProductLowBit(m, Product(m, a, b), c);
      ProductLowBit(m, b, c);
      ProductXorRight(m, a, low, Double(m, high));
      ProductDoubleRight(m, a, high);
    }
  }
}
