/** Reed-Solomon codewords are far apart, so few errors can be corrected. */
module RsDistance {
  import opened Bits
  import opened ByteField
  import opened QrField
  import opened ReedSolomon

  /** A non-zero coefficient and its degree. */
  datatype Term = Term(coef: Byte, degree: nat)

  /** The sum of the terms at alpha^k. */
  function PowerSum(terms: seq<Term>, k: nat): Byte {
    if terms == [] then 0
    else
      var last := terms[|terms| - 1];
      XorByte(PowerSum(terms[..|terms| - 1], k), Mul(last.coef, Alpha(last.degree * k)))
  }

  lemma PowerSumAppend(terms: seq<Term>, t: Term, k: nat)
    ensures PowerSum(terms + [t], k) == XorByte(PowerSum(terms, k), Mul(t.coef, Alpha(t.degree * k)))
  {
    assert (terms + [t])[..|terms|] == terms;
  }

  ghost predicate DistinctDegrees(terms: seq<Term>) {
    && (forall i :: 0 <= i < |terms| ==> terms[i].degree < 255)
    && (forall i, j :: 0 <= i < j < |terms| ==> terms[i].degree != terms[j].degree)
  }

  // ---- a Vandermonde argument ------------------------------------------------------------

  /** Every coefficient multiplied by the difference of its location and alpha^e. */
  function Reduced(terms: seq<Term>, e: nat): (r: seq<Term>)
    ensures |r| == |terms|
  {
    seq(|terms|, i requires 0 <= i < |terms| =>
      Term(Mul(terms[i].coef, XorByte(Alpha(terms[i].degree), Alpha(e))), terms[i].degree))
  }

  /** c (x + y) p == c (x p) + y (c p) */
  lemma Spread(c: Byte, x: Byte, y: Byte, p: Byte)
    ensures Mul(Mul(c, XorByte(x, y)), p) == Xor(Mul(c, Mul(x, p)), Mul(y, Mul(c, p)))
  {
    hide Xor, Product;
    ProductXorRight(POLY, c, x, y);
    ProductXorLeft(POLY, Mul(c, x), Mul(c, y), p);
    ProductAssoc(POLY, c, x, p);
    ProductComm(POLY, c, y);
    ProductAssoc(POLY, y, c, p);
  }

  lemma NextPower(e: nat, k: nat)
    ensures Alpha(e * (k + 1)) == Mul(Alpha(e), Alpha(e * k))
  {
    hide Product, ByteField.Shift;
    AlphaAdd(e, e * k);
    assert e + e * k == e * (k + 1);
  }

  lemma {:induction false} ReducedSum(terms: seq<Term>, e: nat, k: nat)
    ensures PowerSum(Reduced(terms, e), k) == Xor(PowerSum(terms, k + 1), Mul(Alpha(e), PowerSum(terms, k)))
  {
    hide Xor, Product, ByteField.Shift;
    if terms == [] {
      TimesZero(Alpha(e));
      XorZero(0);
    } else {
      var n := |terms| - 1;
      var t, init := terms[n], terms[..n];
      ReducedSum(init, e, k);
      assert Reduced(terms, e)[..n] == Reduced(init, e);
      Spread(t.coef, Alpha(t.degree), Alpha(e), Alpha(t.degree * k));
      NextPower(t.degree, k);
      ProductXorRight(POLY, Alpha(e), PowerSum(init, k), Mul(t.coef, Alpha(t.degree * k)));
      XorSwap(PowerSum(init, k + 1), Mul(Alpha(e), PowerSum(init, k)),
              Mul(t.coef, Alpha(t.degree * (k + 1))), Mul(Alpha(e), Mul(t.coef, Alpha(t.degree * k))));
    }
  }

  lemma TimesZero(a: Byte)
    ensures Mul(a, 0) == 0
  {
  }

  /** As many vanishing power sums as terms force every coefficient to be zero. */
  lemma {:induction false} Vandermonde(terms: seq<Term>, i: nat)
    requires DistinctDegrees(terms) && i < |terms|
    requires forall k :: 0 <= k < |terms| ==> PowerSum(terms, k) == 0
    ensures terms[i].coef == 0
    decreases |terms|, if i == |terms| - 1 then 1 else 0
  {
    hide Xor, Product, ByteField.Shift;
    var n := |terms| - 1;
    var t, init := terms[n], terms[..n];
    if i < n {
      ReducedVanishes(terms);
      Vandermonde(Reduced(init, t.degree), i);
      var x := XorByte(Alpha(init[i].degree), Alpha(t.degree));
      NoZeroDivisors(init[i].coef, x);
      LocationsDiffer(init[i].degree, t.degree);
    } else {
      forall j | 0 <= j < n ensures init[j].coef == 0 {
        Vandermonde(terms, j);
      }
      NullSum(init);
      OneTerm(terms);
    }
  }

  lemma LocationsDiffer(i: nat, j: nat)
    requires i < 255 && j < 255 && i != j
    ensures XorByte(Alpha(i), Alpha(j)) != 0
  {
    hide Xor, ByteField.Shift;
    if i < j {
      AlphaInjective(i, j);
    } else {
      AlphaInjective(j, i);
    }
    if Xor(Alpha(i), Alpha(j)) == 0 {
      XorZeroOnly(Alpha(i), Alpha(j));
      assert false;
    }
  }

  lemma ReducedVanishes(terms: seq<Term>)
    requires DistinctDegrees(terms) && |terms| > 1
    requires forall k :: 0 <= k < |terms| ==> PowerSum(terms, k) == 0
    ensures var n := |terms| - 1;
            var reduced := Reduced(terms[..n], terms[n].degree);
            DistinctDegrees(reduced) && forall k :: 0 <= k < n ==> PowerSum(reduced, k) == 0
  {
    hide Xor, Product, ByteField.Shift, PowerSum;
    var n := |terms| - 1;
    var t, init := terms[n], terms[..n];
    forall k | 0 <= k < n ensures PowerSum(Reduced(init, t.degree), k) == 0 {
      ReducedSum(terms, t.degree, k);
      ReducedLast(terms, k);
      TimesZero(Alpha(t.degree));
      XorZero(0);
      assert PowerSum(terms, k + 1) == 0;
    }
  }

  /** The last term itself disappears. */
  lemma ReducedLast(terms: seq<Term>, k: nat)
    requires |terms| > 0
    ensures var n := |terms| - 1;
            PowerSum(Reduced(terms, terms[n].degree), k) == PowerSum(Reduced(terms[..n], terms[n].degree), k)
  {
    hide Xor, Product, ByteField.Shift;
    var n := |terms| - 1;
    var t := terms[n];
    assert Reduced(terms, t.degree)[..n] == Reduced(terms[..n], t.degree);
    XorSelf(Alpha(t.degree));
    TimesZero(t.coef);
    ProductZeroLeft(POLY, Alpha(t.degree * k));
    XorZero(PowerSum(Reduced(terms[..n], t.degree), k));
  }

  lemma {:induction false} NullSum(terms: seq<Term>)
    requires forall i :: 0 <= i < |terms| ==> terms[i].coef == 0
    ensures PowerSum(terms, 0) == 0
  {
    if terms != [] {
      NullSum(terms[..|terms| - 1]);
      ProductZeroLeft(POLY, Alpha(0));
    }
  }

  lemma OneTerm(terms: seq<Term>)
    requires |terms| > 0 && PowerSum(terms, 0) == 0 && PowerSum(terms[..|terms| - 1], 0) == 0
    ensures terms[|terms| - 1].coef == 0
  {
    hide Xor, Product;
    var c := terms[|terms| - 1].coef;
    ProductUnit(POLY, c);
    XorZero(Mul(c, Alpha(0)));
  }

  // ---- polynomials as terms ---------------------------------------------------------------------

  function Raised(terms: seq<Term>): (r: seq<Term>)
    ensures |r| == |terms|
  {
    seq(|terms|, i requires 0 <= i < |terms| => Term(terms[i].coef, terms[i].degree + 1))
  }

  /** The non-zero terms of a polynomial, highest degree first. */
  function Terms(c: Poly): seq<Term> {
    if c == [] then []
    else
      var n := |c| - 1;
      Raised(Terms(c[..n])) + (if c[n] == 0 then [] else [Term(c[n], 0)])
  }

  lemma {:induction false} TermsShape(c: Poly)
    ensures forall i :: 0 <= i < |Terms(c)| ==> Terms(c)[i].degree < |c| && Terms(c)[i].coef != 0
    ensures forall i, j :: 0 <= i < j < |Terms(c)| ==> Terms(c)[i].degree > Terms(c)[j].degree
  {
    if c != [] {
      TermsShape(c[..|c| - 1]);
    }
  }

  lemma {:induction false} RaisedSum(terms: seq<Term>, k: nat)
    ensures PowerSum(Raised(terms), k) == Mul(PowerSum(terms, k), Alpha(k))
  {
    hide Xor, Product, ByteField.Shift;
    if terms == [] {
      ProductZeroLeft(POLY, Alpha(k));
    } else {
      var n := |terms| - 1;
      var t, init := terms[n], terms[..n];
      RaisedSum(init, k);
      assert Raised(terms)[..n] == Raised(init);
      AlphaAdd(t.degree * k, k);
      assert (t.degree + 1) * k == t.degree * k + k;
      ProductAssoc(POLY, t.coef, Alpha(t.degree * k), Alpha(k));
      ProductXorLeft(POLY, PowerSum(init, k), Mul(t.coef, Alpha(t.degree * k)), Alpha(k));
    }
  }

  /** The power sums of its terms are the values of a polynomial at the powers of alpha. */
  lemma {:induction false} TermsEval(c: Poly, k: nat)
    ensures PowerSum(Terms(c), k) == Eval(c, Alpha(k))
  {
    hide Xor, Product, ByteField.Shift, PowerSum;
    if c == [] {
      NoTerms(k);
    } else {
      var n := |c| - 1;
      var raised := Raised(Terms(c[..n]));
      TermsEval(c[..n], k);
      RaisedSum(Terms(c[..n]), k);
      if c[n] == 0 {
        assert Terms(c) == raised;
        XorZero(PowerSum(raised, k));
      } else {
        PowerSumAppend(raised, Term(c[n], 0), k);
        UnitAt(c[n]);
      }
    }
  }

  lemma NoTerms(k: nat)
    ensures PowerSum([], k) == 0
  {
  }

  lemma UnitAt(c: Byte)
    ensures Mul(c, Alpha(0)) == c
  {
    ProductUnit(POLY, c);
  }

  // ---- weight and distance -------------------------------------------------------------------------

  /** How many places differ. */
  function Differences(a: Poly, b: Poly): nat
    requires |a| == |b|
  {
    if a == [] then 0
    else Differences(a[..|a| - 1], b[..|b| - 1]) + (if a[|a| - 1] == b[|b| - 1] then 0 else 1)
  }

  lemma {:induction false} TermsCount(a: Poly, b: Poly)
    requires |a| == |b|
    ensures |Terms(Sum(a, b))| == Differences(a, b)
  {
    hide Xor;
    if a != [] {
      var n := |a| - 1;
      TermsCount(a[..n], b[..n]);
      assert Sum(a, b)[..n] == Sum(a[..n], b[..n]);
      XorSelf(a[n]);
      if Xor(a[n], b[n]) == 0 {
        XorZeroOnly(a[n], b[n]);
      }
    }
  }

  lemma {:induction false} EvalSum(a: Poly, b: Poly, x: Byte)
    requires |a| == |b|
    ensures Eval(Sum(a, b), x) == Xor(Eval(a, x), Eval(b, x))
  {
    hide Xor, Product;
    if a == [] {
      XorZero(0);
    } else {
      var n := |a| - 1;
      EvalSum(a[..n], b[..n], x);
      assert Sum(a, b)[..n] == Sum(a[..n], b[..n]);
      ProductXorLeft(POLY, Eval(a[..n], x), Eval(b[..n], x), x);
      XorSwap(Mul(Eval(a[..n], x), x), Mul(Eval(b[..n], x), x), a[n], b[n]);
    }
  }

  /** A word of the code with d error-correction bytes. */
  ghost predicate IsCodeword(a: Poly, d: nat) {
    |a| <= 255 && forall k :: 0 <= k < d ==> Eval(a, Alpha(k)) == 0
  }

  lemma {:induction false} SameWords(a: Poly, b: Poly)
    requires |a| == |b| && Differences(a, b) == 0
    ensures a == b
  {
    if a != [] {
      SameWords(a[..|a| - 1], b[..|b| - 1]);
      assert a == a[..|a| - 1] + [a[|a| - 1]] && b == b[..|b| - 1] + [b[|b| - 1]];
    }
  }

  /** Two distinct codewords of one length differ in more than d places. */
  lemma MinimumDistance(a: Poly, b: Poly, d: nat)
    requires IsCodeword(a, d) && IsCodeword(b, d) && |a| == |b| && a != b
    ensures Differences(a, b) > d
  {
    hide Xor, Product, ByteField.Shift, Eval, Terms, Differences, Sum, PowerSum;
    var c := Sum(a, b);
    var terms := Terms(c);
    TermsCount(a, b);
    TermsShape(c);
    if |terms| == 0 {
      SameWords(a, b);
    } else if |terms| <= d {
      SumLength(a, b);
      forall k | 0 <= k < |terms| ensures PowerSum(terms, k) == 0 {
        TermsEval(c, k);
        EvalSum(a, b, Alpha(k));
        XorZero(0);
        assert Eval(a, Alpha(k)) == 0 && Eval(b, Alpha(k)) == 0;
      }
      Vandermonde(terms, 0);
      assert false;
    }
  }

  lemma SumLength(a: Poly, b: Poly)
    requires |a| == |b|
    ensures |Sum(a, b)| == |a|
  {
  }

  lemma {:induction false} Triangle(a: Poly, r: Poly, b: Poly)
    requires |a| == |r| == |b|
    ensures Differences(a, b) <= Differences(r, a) + Differences(r, b)
  {
    if a != [] {
      var n := |a| - 1;
      Triangle(a[..n], r[..n], b[..n]);
    }
  }

  /** At most d / 2 wrong bytes leave one codeword in reach. */
  lemma UniqueCorrection(received: Poly, a: Poly, b: Poly, d: nat)
    requires IsCodeword(a, d) && IsCodeword(b, d) && |a| == |b| == |received|
    requires 2 * Differences(received, a) <= d && 2 * Differences(received, b) <= d
    ensures a == b
  {
    hide Differences, IsCodeword;
    Triangle(a, received, b);
    if a != b {
      MinimumDistance(a, b, d);
    }
  }

  /** What the encoder appends makes every block a codeword, so blocks of different data are that far apart. */
  lemma BlocksFarApart(data: Poly, other: Poly, d: nat)
    requires 1 <= d && |data| == |other| && |data| + d <= 255 && data != other
    ensures var g := Generator(d);
            Differences(data + Remainder(data, g), other + Remainder(other, g)) > d
  {
    hide Differences, Remainder, Eval, Generator, ByteField.Shift;
    EncodedIsCodeword(data, d);
    EncodedIsCodeword(other, d);
    var a, b := data + Remainder(data, Generator(d)), other + Remainder(other, Generator(d));
    assert a[..|data|] == data && b[..|data|] == other;
    MinimumDistance(a, b, d);
  }

  lemma EncodedIsCodeword(data: Poly, d: nat)
    requires 1 <= d && |data| + d <= 255
    ensures var a := data + Remainder(data, Generator(d));
            |a| == |data| + d && IsCodeword(a, d)
  {
    hide Eval, ByteField.Shift;
    GeneratorMonic(d);
    forall k | 0 <= k < d ensures Eval(data + Remainder(data, Generator(d)), Alpha(k)) == 0 {
      CodewordVanishes(data, d, k);
    }
  }
}
