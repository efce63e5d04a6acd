/** Reed-Solomon encoding over the QR field, section 7.5 of ISO/IEC 18004:2015. */
module ReedSolomon {
  import opened Bits
  import opened ByteField
  import opened QrField

  /** Coefficients, highest power first. */
  type Poly = seq<Byte>

  // ---- polynomial algebra ----------------------------------------------

  function Zeros(n: nat): Poly {
    seq(n, _ => 0)
  }

  function Sum(p: Poly, q: Poly): (r: Poly)
    requires |p| == |q|
  {
    seq(|p|, i requires 0 <= i < |p| => XorByte(p[i], q[i]))
  }

  /** Adds `t` to the low-order end of `p`. */
  function AddLow(p: Poly, t: Poly): (r: Poly)
    requires |t| <= |p|
    ensures |r| == |p|
  {
    p[..|p| - |t|] + Sum(p[|p| - |t|..], t)
  }

  function Scale(f: Byte, g: Poly): (r: Poly)
    ensures |r| == |g|
  {
    seq(|g|, i requires 0 <= i < |g| => Mul(g[i], f))
  }

  /** The product of two polynomials. */
  function Times(q: Poly, g: Poly): (r: Poly)
    requires |g| > 0
    ensures |r| == |q| + |g| - 1
  {
    if q == [] then Zeros(|g| - 1)
    else AddLow(Times(q[..|q| - 1], g) + [0], Scale(q[|q| - 1], g))
  }

  /** The value at x, by Horner's rule. */
  function Eval(p: Poly, x: Byte): Byte {
    if p == [] then 0
    else XorByte(Mul(Eval(p[..|p| - 1], x), x), p[|p| - 1])
  }

  lemma EvalAppend(p: Poly, c: Byte, x: Byte)
    ensures Eval(p + [c], x) == Xor(Mul(Eval(p, x), x), c)
  {
    assert (p + [c])[..|p|] == p;
  }

  lemma {:induction false} EvalZeros(n: nat, x: Byte)
    ensures Eval(Zeros(n), x) == 0
  {
    if n > 0 {
      EvalZeros(n - 1, x);
      assert Zeros(n) == Zeros(n - 1) + [0];
      EvalAppend(Zeros(n - 1), 0, x);
      ProductZeroLeft(POLY, x);
    }
  }

  lemma {:induction false} EvalAddLow(p: Poly, t: Poly, x: Byte)
    requires |t| <= |p|
    ensures Eval(AddLow(p, t), x) == Xor(Eval(p, x), Eval(t, x))
    decreases |t|
  {
    if t == [] {
      assert AddLow(p, t) == p;
    } else {
      var p0, c, t0, d := p[..|p| - 1], p[|p| - 1], t[..|t| - 1], t[|t| - 1];
      EvalAddLow(p0, t0, x);
      assert AddLow(p, t) == AddLow(p0, t0) + [XorByte(c, d)];
      EvalAppend(AddLow(p0, t0), XorByte(c, d), x);
      ProductXorLeft(POLY, Eval(p0, x), Eval(t0, x), x);
      XorSwap(Mul(Eval(p0, x), x), Mul(Eval(t0, x), x), c, d);
    }
  }

  lemma {:induction false} EvalScale(f: Byte, g: Poly, x: Byte)
    ensures Eval(Scale(f, g), x) == Mul(Eval(g, x), f)
  {
    if g == [] {
      ProductZeroLeft(POLY, f);
    } else {
      var g0, c := g[..|g| - 1], g[|g| - 1];
      EvalScale(f, g0, x);
      assert Scale(f, g) == Scale(f, g0) + [Mul(c, f)];
      EvalAppend(Scale(f, g0), Mul(c, f), x);
      var e := Eval(g0, x);
      ProductXorLeft(POLY, Mul(e, x), c, f);
      ProductAssoc(POLY, e, x, f);
      ProductComm(POLY, x, f);
      ProductAssoc(POLY, e, f, x);
    }
  }

  /** Evaluation is multiplicative. */
  lemma {:induction false} EvalTimes(q: Poly, g: Poly, x: Byte)
    requires |g| > 0
    ensures Eval(Times(q, g), x) == Mul(Eval(q, x), Eval(g, x))
  {
    if q == [] {
      EvalZeros(|g| - 1, x);
      ProductZeroLeft(POLY, Eval(g, x));
    } else {
      var q0, f := q[..|q| - 1], q[|q| - 1];
      var e, v := Eval(q0, x), Eval(g, x);
      EvalTimes(q0, g, x);
      EvalAddLow(Times(q0, g) + [0], Scale(f, g), x);
      EvalAppend(Times(q0, g), 0, x);
      EvalScale(f, g, x);
      ProductAssoc(POLY, e, v, x);
      ProductComm(POLY, v, x);
      ProductAssoc(POLY, e, x, v);
      ProductXorLeft(POLY, Mul(e, x), f, v);
      ProductComm(POLY, v, f);
    }
  }

  // ---- the generator ----------------------------------------------------

  /** (x - a^0)(x - a^1)...(x - a^(d-1)) */
  function Generator(d: nat): (r: Poly)
    ensures |r| == d + 1
  {
    if d == 0 then [1] else Times(Generator(d - 1), [1, Alpha(d - 1)])
  }

  lemma EvalLinear(r: Byte, x: Byte)
    ensures Eval([1, r], x) == Xor(x, r)
  {
    EvalAppend([], 1, x);
    assert [] + [1] == [1] && [1] + [r] == [1, r];
    EvalAppend([1], r, x);
    ProductZeroLeft(POLY, x);
    ProductUnitLeft(POLY, x);
  }

  lemma NoZeroDivisors(a: Byte, b: Byte)
    ensures Mul(a, b) == 0 <==> a == 0 || b == 0
  {
    ProductZeroLeft(POLY, b);
    ProductUnit(POLY, a);
    if a != 0 && b != 0 {
      var i := Discrete(a);
      var j := Discrete(b);
      AlphaAdd(i, j);
      AlphaNonzero(i + j);
    }
  }

  lemma EvalOne(x: Byte)
    ensures Eval([1], x) == 1
  {
    EvalAppend([], 1, x);
    assert [] + [1] == [1];
    ProductZeroLeft(POLY, x);
  }

  lemma RootAdded(e: Byte, r: Byte, x: Byte)
    ensures Mul(e, XorByte(x, r)) == 0 <==> e == 0 || x == r
  {
    NoZeroDivisors(e, XorByte(x, r));
    XorSelf(x);
    if Xor(x, r) == 0 {
      XorZeroOnly(x, r);
    }
  }

  /** The roots of the generator are exactly the first d powers of the field generator. */
  lemma {:induction false} GeneratorRoots(d: nat, x: Byte)
    ensures Eval(Generator(d), x) == 0 <==> exists k :: 0 <= k < d && x == Alpha(k)
  {
    hide Alpha, Xor, Mul, Times, Eval;
    if d == 0 {
      EvalOne(x);
    } else {
      var r := Alpha(d - 1);
      GeneratorRoots(d - 1, x);
      EvalTimes(Generator(d - 1), [1, r], x);
      EvalLinear(r, x);
      RootAdded(Eval(Generator(d - 1), x), r, x);
    }
  }

  // ---- the remainder ----------------------------------------------------

  /** One step of the division register: shift in a byte, subtract factor times generator. */
  function Feed(rem: Poly, g: Poly, byte: Byte): (r: Poly)
    requires |g| == |rem| + 1 && |rem| > 0
    ensures |r| == |rem|
  {
    Sum(rem[1..] + [0], Scale(XorByte(byte, rem[0]), g[1..]))
  }

  function Remainder(data: Poly, g: Poly): (r: Poly)
    requires |g| > 1
    ensures |r| == |g| - 1
  {
    if data == [] then Zeros(|g| - 1)
    else Feed(Remainder(data[..|data| - 1], g), g, data[|data| - 1])
  }

  function Quotient(data: Poly, g: Poly): (r: Poly)
    requires |g| > 1
    ensures |r| == |data|
  {
    if data == [] then []
    else
      var init := data[..|data| - 1];
      Quotient(init, g) + [XorByte(data[|data| - 1], Remainder(init, g)[0])]
  }

  lemma FeedSubtracts(rem: Poly, g: Poly, byte: Byte)
    requires |g| == |rem| + 1 && |rem| > 0 && g[0] == 1
    ensures Sum(rem + [0], Scale(XorByte(byte, rem[0]), g)) == [byte] + Feed(rem, g, byte)
  {
    hide Xor, Mul;
    XorComm(byte, rem[0]);
    XorCancel(rem[0], byte);
    UnitMul(XorByte(byte, rem[0]));
  }

  lemma UnitMul(f: Byte)
    ensures Mul(1, f) == f
  {
    ProductUnitLeft(POLY, f);
  }

  lemma DivideStep(init: Poly, q: Poly, g: Poly, rem: Poly, byte: Byte)
    requires |g| == |rem| + 1 && |rem| > 0 && g[0] == 1
    requires init + rem == Times(q, g)
    ensures init + [byte] + Feed(rem, g, byte) == Times(q + [XorByte(byte, rem[0])], g)
  {
    hide Sum, Scale, Feed, XorByte;
    var f := XorByte(byte, rem[0]);
    assert (q + [f])[..|q|] == q;
    var p := init + rem + [0];
    assert p[|init|..] == rem + [0] && p[..|init|] == init;
    FeedSubtracts(rem, g, byte);
    assert AddLow(p, Scale(f, g)) == init + ([byte] + Feed(rem, g, byte));
  }

  /** Data followed by its remainder is the quotient times the generator. */
  lemma {:induction false} RemainderDivides(data: Poly, g: Poly)
    requires |g| > 1 && g[0] == 1
    ensures data + Remainder(data, g) == Times(Quotient(data, g), g)
  {
    hide Sum, Scale, Feed, XorByte, AddLow;
    if data == [] {
      assert data + Remainder(data, g) == Zeros(|g| - 1);
    } else {
      var init, byte := data[..|data| - 1], data[|data| - 1];
      RemainderDivides(init, g);
      DivideStep(init, Quotient(init, g), g, Remainder(init, g), byte);
      assert data == init + [byte];
    }
  }

  /** Division by a monic polynomial has only one quotient and one remainder. */
  lemma {:induction false} RemainderUnique(data: Poly, rem: Poly, q: Poly, g: Poly)
    requires |g| == |rem| + 1 && |rem| > 0 && g[0] == 1 && |q| == |data|
    requires data + rem == Times(q, g)
    ensures rem == Remainder(data, g) && q == Quotient(data, g)
  {
    hide Sum, Scale, Feed, AddLow, Xor;
    if data == [] {
      assert rem == data + rem;
    } else {
      var n := |data| - 1;
      var q0, f, init, byte := q[..n], q[n], data[..n], data[n];
      var rem0 := Times(q0, g)[n..];
      LeadOfProduct(data, rem, q, g);
      assert init + rem0 == Times(q0, g);
      RemainderUnique(init, rem0, q0, g);
      XorComm(rem0[0], f);
      XorCancel(f, rem0[0]);
      DivideStep(init, q0, g, rem0, byte);
      assert q0 + [f] == q && init + [byte] == data;
      assert rem == (data + rem)[|data|..] == Feed(rem0, g, byte);
    }
  }

  /** What the leading coefficients of a product with a monic polynomial are. */
  lemma LeadOfProduct(data: Poly, rem: Poly, q: Poly, g: Poly)
    requires |g| == |rem| + 1 && |rem| > 0 && g[0] == 1 && |q| == |data| > 0
    requires data + rem == Times(q, g)
    ensures var n := |data| - 1;
            var t := Times(q[..n], g);
            data[..n] == t[..n] && data[n] == Xor(t[n], q[n])
  {
    hide Xor, Mul;
    var n := |data| - 1;
    var t := Times(q[..n], g);
    UnitMul(q[n]);
    var p := AddLow(t + [0], Scale(q[n], g));
    assert data == p[..n + 1];
    assert p[n] == Xor((t + [0])[n], Scale(q[n], g)[0]);
    assert data[..n] == p[..n];
  }

  lemma {:induction false} GeneratorMonic(d: nat)
    ensures Generator(d)[0] == 1
  {
    if d > 0 {
      GeneratorMonic(d - 1);
      TimesLead(Generator(d - 1), [1, Alpha(d - 1)]);
    }
  }

  lemma {:induction false} TimesLead(q: Poly, g: Poly)
    requires |q| > 0 && |g| > 1 && g[0] == 1
    ensures Times(q, g)[0] == q[0]
  {
    if |q| > 1 {
      TimesLead(q[..|q| - 1], g);
    } else {
      ProductUnitLeft(POLY, q[0]);
    }
  }

  /** Every encoded block vanishes at a^0 .. a^(d-1). */
  lemma CodewordVanishes(data: Poly, d: nat, k: nat)
    requires 1 <= d && k < d
    ensures Eval(data + Remainder(data, Generator(d)), Alpha(k)) == 0
  {
    var g := Generator(d);
    GeneratorMonic(d);
    RemainderDivides(data, g);
    EvalTimes(Quotient(data, g), g, Alpha(k));
    GeneratorRoots(d, Alpha(k));
    ProductUnit(POLY, Eval(Quotient(data, g), Alpha(k)));
  }

  // ---- the encoder's loops ------------------------------------------------

  /** Entry j of the product with (x - r). */
  lemma TimesLinear(g: Poly, r: Byte, j: nat)
    requires |g| > 0 && j <= |g|
    ensures Times(g, [1, r])[j]
         == Xor(if j < |g| then g[j] else 0, if j > 0 then Mul(g[j - 1], r) else 0)
  {
    var t := Times(g[..|g| - 1], [1, r]);
    var low := Scale(g[|g| - 1], [1, r]);
    UnitMul(g[|g| - 1]);
    ProductComm(POLY, r, g[|g| - 1]);
    if |g| == 1 {
    } else if j < |g| {
      TimesLinear(g[..|g| - 1], r, j);
      assert Times(g, [1, r])[j] == if j == |g| - 1 then Xor(t[j], low[0]) else t[j];
      if j == |g| - 1 {
        XorComm(Mul(g[j - 1], r), g[j]);
      }
    }
  }

  /** Multiplication of `gen` by (x - root), coefficient by coefficient. */
  method TimesRoot(t: Tables, gen: Poly, root: Byte) returns (r: Poly)
    requires Correct(t) && |gen| > 0
    ensures r == Times(gen, [1, root])
  {
    hide Times, Mul, Correct, Xor;
    var next := new Byte[|gen| + 1](_ => 0);
    ghost var goal := Times(gen, [1, root]);
    for j := 0 to |gen|
      invariant forall k :: 0 <= k < j ==> next[k] == goal[k]
      invariant next[j] == if j > 0 then Mul(gen[j - 1], root) else 0
      invariant forall k :: j < k <= |gen| ==> next[k] == 0
    {
      TimesLinear(gen, root, j);
      XorComm(next[j], gen[j]);
      XorZero(GfMul(t, gen[j], root));
      next[j] := XorByte(next[j], gen[j]);
      next[j + 1] := XorByte(next[j + 1], GfMul(t, gen[j], root));
    }
    TimesLinear(gen, root, |gen|);
    XorZero(next[|gen|]);
    r := next[..];
  }

  method RsGenerator(t: Tables, degree: nat) returns (gen: Poly)
    requires Correct(t) && degree <= 512
    ensures gen == Generator(degree)
  {
    gen := [1];
    for i := 0 to degree
      invariant gen == Generator(i)
    {
      gen := TimesRoot(t, gen, t.exp[i]);
    }
  }

  method RsRemainder(t: Tables, data: Poly, generator: Poly) returns (result: Poly)
    requires Correct(t) && |generator| > 1
    ensures result == Remainder(data, generator)
  {
    result := Zeros(|generator| - 1);
    for n := 0 to |data|
      invariant result == Remainder(data[..n], generator)
    {
      var factor := XorByte(data[n], result[0]);
      ghost var before := result;
      result := result[1..] + [0];
      ghost var shifted := result;
      if factor != 0 {
        for i := 0 to |generator| - 1
          invariant |result| == |shifted|
          invariant forall k :: 0 <= k < i ==>
                      result[k] == Xor(shifted[k], Mul(generator[k + 1], factor))
          invariant forall k :: i <= k < |shifted| ==> result[k] == shifted[k]
        {
          result := result[i := XorByte(result[i], GfMul(t, generator[i + 1], factor))];
        }
      }
      FeedIs(before, generator, data[n], result);
      assert data[..n + 1][..n] == data[..n];
    }
    assert data[..|data|] == data;
  }

  lemma FeedIs(rem: Poly, g: Poly, byte: Byte, result: Poly)
    requires |g| == |rem| + 1 && |rem| > 0 && |result| == |rem|
    requires Xor(byte, rem[0]) == 0 ==> result == rem[1..] + [0]
    requires Xor(byte, rem[0]) != 0 ==>
               forall k :: 0 <= k < |rem| ==>
                 result[k] == Xor((rem[1..] + [0])[k], Mul(g[k + 1], XorByte(byte, rem[0])))
    ensures result == Feed(rem, g, byte)
  {
    forall k | 0 <= k < |rem| ensures result[k] == Feed(rem, g, byte)[k] {
      ProductUnit(POLY, g[k + 1]);
      XorZero((rem[1..] + [0])[k]);
    }
  }
}
