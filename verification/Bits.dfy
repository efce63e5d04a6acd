/** Python integers seen as bit strings: powers of two and exclusive or. */
module Bits {
  import opened Basics

  type Byte = n: nat | n < 256

  function Pow2(n: nat): (r: nat)
    ensures r > 0
  {
    if n == 0 then 1 else 2 * Pow2(n - 1)
  }

  /** Exclusive or of two naturals of any width, as Python's `^`. */
  function Xor(a: nat, b: nat): nat {
    if a == 0 then b
    else if b == 0 then a
    else 2 * Xor(a / 2, b / 2) + (if a % 2 == b % 2 then 0 else 1)
  }

  /** `(x >> i) & 1` */
  function Bit(x: nat, i: nat): bool {
    if i == 0 then x % 2 == 1 else Bit(x / 2, i - 1)
  }

  lemma Pow2Values()
    ensures Pow2(8) == 256 && Pow2(7) == 128 && Pow2(9) == 512
  {
  }

  lemma {:induction false} Pow2Add(a: nat, b: nat)
    ensures Pow2(a + b) == Pow2(a) * Pow2(b)
  {
    if a > 0 {
      Pow2Add(a - 1, b);
    }
  }

  lemma {:induction false} Pow2Mono(a: nat, b: nat)
    requires a <= b
    ensures Pow2(a) <= Pow2(b)
  {
    if a < b {
      Pow2Mono(a, b - 1);
    }
  }

  // ---- the group laws -------------------------------------------------

  /** One unfolding, valid for every pair of operands. */
  lemma XorStep(a: nat, b: nat)
    ensures Xor(a, b) == 2 * Xor(a / 2, b / 2) + (if a % 2 == b % 2 then 0 else 1)
  {
  }

  lemma XorHalf(a: nat, b: nat)
    ensures Xor(a, b) / 2 == Xor(a / 2, b / 2)
    ensures Xor(a, b) % 2 == (if a % 2 == b % 2 then 0 else 1)
  {
    XorStep(a, b);
  }

  lemma XorDouble(a: nat, b: nat)
    ensures Xor(2 * a, 2 * b) == 2 * Xor(a, b)
  {
    XorStep(2 * a, 2 * b);
  }

  /** Xor of numbers given by their upper part and lowest bit. */
  lemma XorAppend(x: nat, b: nat, y: nat, c: nat)
    requires b < 2 && c < 2
    ensures Xor(2 * x + b, 2 * y + c) == 2 * Xor(x, y) + (if b == c then 0 else 1)
  {
    hide Xor;
    XorStep(2 * x + b, 2 * y + c);
    assert (2 * x + b) / 2 == x && (2 * x + b) % 2 == b;
    assert (2 * y + c) / 2 == y && (2 * y + c) % 2 == c;
  }

  lemma {:induction false} XorComm(a: nat, b: nat)
    ensures Xor(a, b) == Xor(b, a)
  {
    if a != 0 && b != 0 {
      XorComm(a / 2, b / 2);
    }
  }

  lemma {:induction false} XorAssoc(a: nat, b: nat, c: nat)
    ensures Xor(Xor(a, b), c) == Xor(a, Xor(b, c))
  {
    if a != 0 && b != 0 && c != 0 {
      XorAssoc(a / 2, b / 2, c / 2);
      XorHalf(a, b);
      XorHalf(b, c);
      XorStep(Xor(a, b), c);
      XorStep(a, Xor(b, c));
    }
  }

  lemma {:induction false} XorSelf(a: nat)
    ensures Xor(a, a) == 0
  {
    if a != 0 {
      XorSelf(a / 2);
    }
  }

  lemma XorZero(a: nat)
    ensures Xor(a, 0) == a && Xor(0, a) == a
  {
  }

  lemma XorCancel(a: nat, b: nat)
    ensures Xor(Xor(a, b), b) == a
    ensures Xor(a, Xor(a, b)) == b
  {
    XorAssoc(a, b, b);
    XorSelf(b);
    XorAssoc(a, a, b);
    XorSelf(a);
  }

  /** The equation `x ^ y == 0` has only the solution `x == y`. */
  lemma XorZeroOnly(a: nat, b: nat)
    requires Xor(a, b) == 0
    ensures a == b
  {
    XorCancel(a, b);
  }

  /** Exchange of the middle terms in a sum of four. */
  lemma XorSwap(a: nat, b: nat, c: nat, d: nat)
    ensures Xor(Xor(a, b), Xor(c, d)) == Xor(Xor(a, c), Xor(b, d))
  {
    XorAssoc(a, b, Xor(c, d));
    XorAssoc(b, c, d);
    XorComm(b, c);
    XorAssoc(c, b, d);
    XorAssoc(a, c, Xor(b, d));
  }

  /** A shared term disappears from a sum of two sums. */
  lemma XorShared(a: nat, s: nat, b: nat)
    ensures Xor(Xor(a, s), Xor(b, s)) == Xor(a, b)
    ensures Xor(Xor(a, s), Xor(s, b)) == Xor(a, b)
  {
    XorSwap(a, s, b, s);
    XorSelf(s);
    XorZero(Xor(a, b));
    XorComm(b, s);
  }

  lemma {:induction false} XorBound(a: nat, b: nat, n: nat)
    requires a < Pow2(n) && b < Pow2(n)
    ensures Xor(a, b) < Pow2(n)
  {
    if n > 0 && a != 0 && b != 0 {
      XorBound(a / 2, b / 2, n - 1);
    }
  }

  /** A common leading bit cancels, a lone leading bit survives. */
  lemma {:induction false} XorTopBit(a: nat, b: nat, n: nat)
    requires a < Pow2(n + 1) && b < Pow2(n + 1)
    ensures Xor(a, b) < Pow2(n + 1)
    ensures Xor(a, b) < Pow2(n) <==> (a < Pow2(n) <==> b < Pow2(n))
  {
    XorBound(a, b, n + 1);
    if n > 0 && a != 0 && b != 0 {
      XorTopBit(a / 2, b / 2, n - 1);
    }
  }

  // ---- bytes ----------------------------------------------------------

  function XorByte(a: Byte, b: Byte): (r: Byte)
    ensures r == Xor(a, b)
  {
    Pow2Values();
    XorBound(a, b, 8);
    Xor(a, b)
  }

  // ---- single bits ----------------------------------------------------

  lemma {:induction false} BitXor(a: nat, b: nat, i: nat)
    ensures Bit(Xor(a, b), i) == (Bit(a, i) != Bit(b, i))
  {
    XorHalf(a, b);
    if i > 0 {
      BitXor(a / 2, b / 2, i - 1);
    }
  }

  /** Numbers with the same bits are equal. */
  lemma {:induction false} BitsDetermine(a: nat, b: nat)
    requires forall i: nat :: Bit(a, i) == Bit(b, i)
    ensures a == b
  {
    assert Bit(a, 0) == Bit(b, 0);
    if a != 0 || b != 0 {
      forall i: nat ensures Bit(a / 2, i) == Bit(b / 2, i) {
        assert Bit(a, i + 1) == Bit(b, i + 1);
      }
      BitsDetermine(a / 2, b / 2);
    }
  }

  lemma {:induction false} BitZero(i: nat)
    ensures !Bit(0, i)
  {
    if i > 0 {
      BitZero(i - 1);
    }
  }

  lemma {:induction false} BitPow2(j: nat, i: nat)
    ensures Bit(Pow2(j), i) == (i == j)
  {
    if i > 0 {
      if j > 0 {
        BitPow2(j - 1, i - 1);
      } else {
        BitZero(i - 1);
      }
    }
  }

  // ---- division by powers of two ----------------------------------------

  lemma DivUnique(v: nat, p: nat, q: nat, r: nat)
    requires p > 0 && r < p && v == p * q + r
    ensures v / p == q && v % p == r
  {
    var d := v / p;
    if d < q {
      MulGrows(p, d + 1, q);
    } else if q < d {
      MulGrows(p, q + 1, d);
    }
  }

  lemma DivDiv(v: nat, p: nat)
    requires p > 0
    ensures v / 2 / p == v / (2 * p)
    ensures v / p / 2 == v / (2 * p)
  {
    var q, r := v / (2 * p), v % (2 * p);
    var pq := p * q;
    assert v == 2 * pq + r;
    DivUnique(v / 2, p, q, r / 2);
    if r >= p {
      assert p * (2 * q + 1) == 2 * pq + p;
      DivUnique(v, p, 2 * q + 1, r - p);
    } else {
      assert p * (2 * q) == 2 * pq;
      DivUnique(v, p, 2 * q, r);
    }
  }

  function Quotient(v: nat, p: nat): (q: nat)
    requires p > 0
    ensures q == v / p
  {
    v / p
  }

  lemma {:induction false} BitShiftDown(v: nat, k: nat, i: nat)
    requires k <= i
    ensures Bit(v, i) == Bit(Quotient(v, Pow2(k)), i - k)
  {
    if k > 0 {
      BitShiftDown(v / 2, k - 1, i - 1);
      DivDiv(v, Pow2(k - 1));
    }
  }

  lemma {:induction false} BitShiftUp(v: nat, k: nat, i: nat)
    ensures Bit(v * Pow2(k), i) == (i >= k && Bit(v, i - k))
  {
    if k > 0 {
      var w := v * Pow2(k - 1);
      BitShiftUp(v, k - 1, if i > 0 then i - 1 else 0);
      assert v * Pow2(k) == 2 * w by {
        MulDouble(v, Pow2(k - 1));
      }
    }
  }

  lemma MulDouble(a: nat, b: nat)
    ensures a * (2 * b) == 2 * (a * b)
  {
  }

  /** Numbers split at a bit position are added part by part. */
  lemma {:induction false} XorSplit(a: nat, r: nat, b: nat, s: nat, n: nat)
    requires r < Pow2(n) && s < Pow2(n)
    ensures Xor(Pow2(n) * a + r, Pow2(n) * b + s) == Pow2(n) * Xor(a, b) + Xor(r, s)
  {
    hide Xor;
    if n == 0 {
      XorZero(0);
    } else {
      var p := Pow2(n - 1);
      XorSplit(a, r / 2, b, s / 2, n - 1);
      MulDouble(a, p);
      MulDouble(b, p);
      MulDouble(Xor(a, b), p);
      XorAppend(p * a + r / 2, r % 2, p * b + s / 2, s % 2);
      XorAppend(r / 2, r % 2, s / 2, s % 2);
      assert 2 * (p * a + r / 2) + r % 2 == Pow2(n) * a + r;
      assert 2 * (p * b + s / 2) + s % 2 == Pow2(n) * b + s;
    }
  }

  /** Numbers without common bits add. */
  lemma XorDisjoint(a: nat, r: nat, n: nat)
    requires r < Pow2(n)
    ensures Xor(Pow2(n) * a, r) == Pow2(n) * a + r
  {
    hide Xor, Pow2;
    XorSplit(a, 0, 0, r, n);
    XorZero(a);
    XorZero(r);
  }

  /** Flipping every bit of an n-bit number. */
  lemma {:induction false} XorOnes(m: nat, n: nat)
    requires m < Pow2(n)
    ensures Xor(m, Pow2(n) - 1) == Pow2(n) - 1 - m
  {
    hide Xor;
    if n == 0 {
      XorZero(0);
    } else {
      XorOnes(m / 2, n - 1);
      XorAppend(m / 2, m % 2, Pow2(n - 1) - 1, 1);
    }
  }

  /** Flipping the low n bits. */
  lemma XorLow(v: nat, n: nat, p: nat)
    requires p == Pow2(n)
    ensures Xor(v, p - 1) == v + p - 1 - 2 * (v % p)
  {
    hide Xor, Pow2;
    var a, r := v / p, v % p;
    assert v == p * a + r;
    XorSplit(a, r, 0, p - 1, n);
    XorZero(a);
    XorOnes(r, n);
  }
}
