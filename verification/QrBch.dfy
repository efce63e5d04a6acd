/** The format and version words are BCH codewords. */
module QrBch {
  import opened Bits
  import opened QrTables
  import opened QrMatrix

  /** The product of two polynomials over GF(2) held in the bits of numbers. */
  function Carryless(q: nat, g: nat): nat {
    if q == 0 then 0 else Xor(2 * Carryless(q / 2, g), if q % 2 == 1 then g else 0)
  }

  lemma {:induction false} TopBit(x: nat, top: nat)
    requires x < Pow2(top + 1)
    ensures Bit(x, top) <==> x >= Pow2(top)
  {
    if top > 0 {
      TopBit(x / 2, top - 1);
    }
  }

  /** Shifting the register and cancelling its top bit keeps it in range. */
  lemma RegisterStep(rem: nat, poly: nat, top: nat)
    requires rem < Pow2(top + 1) && Pow2(top + 1) <= poly < Pow2(top + 2)
    ensures Xor(2 * rem, if Bit(rem, top) then poly else 0) < Pow2(top + 1)
  {
    hide Xor, Bit;
    TopBit(rem, top);
    XorTopBit(2 * rem, if Bit(rem, top) then poly else 0, top + 1);
  }

  lemma CarrylessStep(q: nat, g: nat, b: bool)
    ensures Carryless(2 * q + (if b then 1 else 0), g) == Xor(2 * Carryless(q, g), if b then g else 0)
  {
    XorZero(0);
  }

  /** The register holds the remainder: shifted data plus register is a multiple of the polynomial. */
  lemma {:induction false} BchDivides(data: nat, poly: nat, top: nat, n: nat) returns (q: nat)
    requires data < Pow2(top + 1) && Pow2(top + 1) <= poly < Pow2(top + 2)
    ensures Bch(data, poly, top, n) < Pow2(top + 1)
    ensures Xor(Pow2(n) * data, Bch(data, poly, top, n)) == Carryless(q, poly)
  {
    hide Xor, Bit, Carryless, Pow2;
    PowStep(n);
    if n == 0 {
      q := 0;
      XorSelf(data);
      NoProduct(poly);
    } else {
      var p := BchDivides(data, poly, top, n - 1);
      var rem := Bch(data, poly, top, n - 1);
      var term := if Bit(rem, top) then poly else 0;
      q := 2 * p + (if Bit(rem, top) then 1 else 0);
      RegisterStep(rem, poly, top);
      CarrylessStep(p, poly, Bit(rem, top));
      var x := Pow2(n - 1) * data;
      ShiftedSum(x, rem, term);
      MulDouble(data, Pow2(n - 1));
      assert Pow2(n) * data == 2 * x;
    }
  }

  lemma PowStep(n: nat)
    ensures Pow2(0) == 1 && (n > 0 ==> Pow2(n) == 2 * Pow2(n - 1))
  {
  }

  lemma NoProduct(g: nat)
    ensures Carryless(0, g) == 0
  {
  }

  lemma ShiftedSum(x: nat, rem: nat, term: nat)
    ensures Xor(2 * x, Xor(2 * rem, term)) == Xor(2 * Xor(x, rem), term)
  {
    hide Xor;
    XorAssoc(2 * x, 2 * rem, term);
    XorDouble(x, rem);
  }

  lemma WordDivides(data: nat, poly: nat, top: nat) returns (q: nat)
    requires data < Pow2(top + 1) && Pow2(top + 1) <= poly < Pow2(top + 2)
    ensures Bch(data, poly, top, top + 1) < Pow2(top + 1)
    ensures Pow2(top + 1) * data + Bch(data, poly, top, top + 1) == Carryless(q, poly)
  {
    hide Xor, Bit, Carryless, Bch;
    q := BchDivides(data, poly, top, top + 1);
    XorDisjoint(data, Bch(data, poly, top, top + 1), top + 1);
  }

  lemma PowersUsed(a: nat, b: nat)
    requires a == 10 && b == 12
    ensures Pow2(a) == 1024 && Pow2(a + 1) == 2048 && Pow2(b) == 4096 && Pow2(b + 1) == 8192
  {
    Pow2Values();
    assert Pow2(a) == 2 * Pow2(9);
    assert Pow2(a + 1) == 2 * Pow2(a);
    assert Pow2(b) == 2 * Pow2(a + 1);
  }

  /** Unmasked, the format word is a multiple of x^10 + x^8 + x^5 + x^4 + x^2 + x + 1. */
  lemma FormatIsCodeword(level: Level, mask: int) returns (q: nat)
    requires 0 <= mask < 8
    ensures Xor(FormatBits(level, mask), FORMAT_MASK) == Carryless(q, 0x537)
  {
    hide Xor, Bit, Carryless, Bch, Pow2;
    var data := 8 * LevelBits(level) + mask;
    PowersUsed(10, 12);
    q := WordDivides(data, 0x537, 9);
    XorCancel(1024 * data + Bch(data, 0x537, 9, 10) % 1024, FORMAT_MASK);
  }

  /** The version word is a multiple of x^12 + x^11 + x^10 + x^9 + x^8 + x^5 + x^2 + 1. */
  lemma VersionIsCodeword(version: Version) returns (q: nat)
    ensures VersionBits(version) == Carryless(q, 0x1F25)
  {
    hide Xor, Bit, Carryless, Bch, Pow2;
    PowersUsed(10, 12);
    q := WordDivides(version, 0x1F25, 11);
  }
}
