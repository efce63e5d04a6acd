/** Multiplication in a binary field whose elements are written lowest power first.

    An element of `n` bits has the coefficient of x^i at bit `n - 1 - i`, so that
    multiplication by x is a shift to the right. GHASH uses n == 128. */
module ReflectedField {
  import opened Bits

  /** `n` bits, and the residue of x^n as an element. */
  datatype Field = Field(n: nat, r: nat)

  predicate Valid(f: Field) {
    f.n > 0 && f.r < Pow2(f.n)
  }

  predicate In(f: Field, v: nat) {
    v < Pow2(f.n)
  }

  function One(f: Field): (r: nat)
    requires Valid(f)
  {
    Pow2(f.n - 1)
  }

  /** Multiplication by x. */
  function Halve(f: Field, v: nat): nat {
    if v % 2 == 1 then Xor(v / 2, f.r) else v / 2
  }

  /** Multiplication by x^i. */
  function Shift(f: Field, v: nat, i: nat): nat {
    if i == 0 then v else Halve(f, Shift(f, v, i - 1))
  }

  /** y times the k-coefficient polynomial held in the low k bits of x. */
  function Sum(f: Field, y: nat, x: nat, k: nat): nat {
    if k == 0 then 0
    else Xor(Sum(f, y, x / 2, k - 1), if x % 2 == 1 then Shift(f, y, k - 1) else 0)
  }

  function Mul(f: Field, x: nat, y: nat): nat {
    Sum(f, y, x, f.n)
  }

  // ---- closure -------------------------------------------------------------

  lemma HalveIn(f: Field, v: nat)
    requires Valid(f) && In(f, v)
    ensures In(f, Halve(f, v))
  {
    XorBound(v / 2, f.r, f.n);
  }

  lemma {:induction false} ShiftIn(f: Field, v: nat, i: nat)
    requires Valid(f) && In(f, v)
    ensures In(f, Shift(f, v, i))
  {
    if i > 0 {
      ShiftIn(f, v, i - 1);
      HalveIn(f, Shift(f, v, i - 1));
    }
  }

  lemma {:induction false} SumIn(f: Field, y: nat, x: nat, k: nat)
    requires Valid(f) && In(f, y)
    ensures In(f, Sum(f, y, x, k))
  {
    if k > 0 {
      SumIn(f, y, x / 2, k - 1);
      ShiftIn(f, y, k - 1);
      XorBound(Sum(f, y, x / 2, k - 1), if x % 2 == 1 then Shift(f, y, k - 1) else 0, f.n);
    }
  }

  // ---- linearity -------------------------------------------------------------

  lemma HalveXor(f: Field, a: nat, b: nat)
    ensures Halve(f, Xor(a, b)) == Xor(Halve(f, a), Halve(f, b))
  {
    hide Xor;
    XorHalf(a, b);
    XorSwap(a / 2, if a % 2 == 1 then f.r else 0, b / 2, if b % 2 == 1 then f.r else 0);
    XorSelf(f.r);
    XorZero(f.r);
    XorZero(a / 2);
    XorZero(b / 2);
    XorZero(Xor(a / 2, b / 2));
    XorZero(0);
  }

  lemma {:induction false} ShiftXor(f: Field, a: nat, b: nat, i: nat)
    ensures Shift(f, Xor(a, b), i) == Xor(Shift(f, a, i), Shift(f, b, i))
  {
    hide Xor, Halve;
    if i > 0 {
      ShiftXor(f, a, b, i - 1);
      HalveXor(f, Shift(f, a, i - 1), Shift(f, b, i - 1));
    }
  }

  lemma {:induction false} ShiftInside(f: Field, v: nat, i: nat)
    ensures Shift(f, Halve(f, v), i) == Shift(f, v, i + 1)
  {
    hide Halve;
    if i > 0 {
      ShiftInside(f, v, i - 1);
    }
  }

  lemma {:induction false} ShiftAdd(f: Field, v: nat, i: nat, j: nat)
    ensures Shift(f, Shift(f, v, i), j) == Shift(f, v, i + j)
  {
    hide Halve;
    if j > 0 {
      ShiftAdd(f, v, i, j - 1);
    }
  }

  lemma {:induction false} ShiftZero(f: Field, i: nat)
    ensures Shift(f, 0, i) == 0
  {
    if i > 0 {
      ShiftZero(f, i - 1);
    }
  }

  lemma {:induction false} SumXorLeft(f: Field, a: nat, b: nat, x: nat, k: nat)
    ensures Sum(f, Xor(a, b), x, k) == Xor(Sum(f, a, x, k), Sum(f, b, x, k))
  {
    hide Xor, Shift;
    XorZero(0);
    if k > 0 {
      SumXorLeft(f, a, b, x / 2, k - 1);
      ShiftXor(f, a, b, k - 1);
      XorSwap(Sum(f, a, x / 2, k - 1), if x % 2 == 1 then Shift(f, a, k - 1) else 0,
              Sum(f, b, x / 2, k - 1), if x % 2 == 1 then Shift(f, b, k - 1) else 0);
    }
  }

  lemma {:induction false} SumXorRight(f: Field, y: nat, a: nat, b: nat, k: nat)
    ensures Sum(f, y, Xor(a, b), k) == Xor(Sum(f, y, a, k), Sum(f, y, b, k))
  {
    hide Xor, Shift;
    XorZero(0);
    if k > 0 {
      SumXorRight(f, y, a / 2, b / 2, k - 1);
      XorHalf(a, b);
      var s := Shift(f, y, k - 1);
      XorSwap(Sum(f, y, a / 2, k - 1), if a % 2 == 1 then s else 0,
              Sum(f, y, b / 2, k - 1), if b % 2 == 1 then s else 0);
      XorSelf(s);
      XorZero(s);
    }
  }

  lemma {:induction false} SumHalve(f: Field, y: nat, x: nat, k: nat)
    ensures Sum(f, Halve(f, y), x, k) == Halve(f, Sum(f, y, x, k))
  {
    hide Xor, Halve;
    HalveZero(f);
    if k > 0 {
      SumHalve(f, y, x / 2, k - 1);
      ShiftInside(f, y, k - 1);
      HalveXor(f, Sum(f, y, x / 2, k - 1), if x % 2 == 1 then Shift(f, y, k - 1) else 0);
    }
  }

  lemma HalveZero(f: Field)
    ensures Halve(f, 0) == 0
  {
  }

  lemma {:induction false} SumShift(f: Field, y: nat, x: nat, k: nat, i: nat)
    ensures Sum(f, Shift(f, y, i), x, k) == Shift(f, Sum(f, y, x, k), i)
  {
    hide Halve;
    if i > 0 {
      SumShift(f, y, x, k, i - 1);
      SumHalve(f, Shift(f, y, i - 1), x, k);
    }
  }

  // ---- the unit ----------------------------------------------------------------

  lemma {:induction false} ShiftOne(f: Field, i: nat)
    requires Valid(f) && i < f.n
    ensures Shift(f, One(f), i) == Pow2(f.n - 1 - i)
  {
    if i > 0 {
      ShiftOne(f, i - 1);
    }
  }

  lemma Regroup(a: nat, b: nat)
    ensures a * (2 * b) == (2 * a) * b
    ensures a * (2 * b) == 2 * (a * b)
  {
  }

  lemma {:induction false} XorScale(a: nat, b: nat, j: nat)
    ensures Xor(a * Pow2(j), b * Pow2(j)) == Xor(a, b) * Pow2(j)
  {
    hide Xor;
    if j > 0 {
      var p := Pow2(j - 1);
      XorScale(a, b, j - 1);
      XorDouble(a * p, b * p);
      Regroup(a, p);
      Regroup(b, p);
      Regroup(Xor(a, b), p);
    }
  }

  /** The polynomial in the low k bits of x, as an element. */
  lemma {:induction false} SumOne(f: Field, x: nat, k: nat)
    requires Valid(f) && k <= f.n && x < Pow2(k)
    ensures Sum(f, One(f), x, k) == x * Pow2(f.n - k)
  {
    hide Xor, Shift;
    if k > 0 {
      SumOne(f, x / 2, k - 1);
      ShiftOne(f, k - 1);
      var j := f.n - k;
      assert Pow2(j + 1) == 2 * Pow2(j);
      assert x / 2 * Pow2(j + 1) == (2 * (x / 2)) * Pow2(j) by {
        Regroup(x / 2, Pow2(j));
      }
      XorScale(2 * (x / 2), x % 2, j);
      XorAppend(x / 2, 0, 0, x % 2);
      XorZero(x / 2);
      XorZero(x / 2 * Pow2(j + 1));
    }
  }

  lemma MulOneRight(f: Field, x: nat)
    requires Valid(f) && In(f, x)
    ensures Mul(f, x, One(f)) == x
  {
    SumOne(f, x, f.n);
  }

  // ---- commutativity and associativity -------------------------------------------

  lemma MulXorLeft(f: Field, a: nat, b: nat, y: nat)
    ensures Mul(f, Xor(a, b), y) == Xor(Mul(f, a, y), Mul(f, b, y))
  {
    SumXorRight(f, y, a, b, f.n);
  }

  lemma MulXorRight(f: Field, x: nat, a: nat, b: nat)
    ensures Mul(f, x, Xor(a, b)) == Xor(Mul(f, x, a), Mul(f, x, b))
  {
    SumXorLeft(f, a, b, x, f.n);
  }

  lemma {:induction false} SumIsMul(f: Field, y: nat, x: nat, k: nat)
    requires Valid(f) && In(f, y)
    ensures Sum(f, y, x, k) == Mul(f, y, Sum(f, One(f), x, k))
  {
    hide Xor, Shift, Mul;
    MulZero(f, y);
    if k > 0 {
      SumIsMul(f, y, x / 2, k - 1);
      MulXorRight(f, y, Sum(f, One(f), x / 2, k - 1),
                  if x % 2 == 1 then Shift(f, One(f), k - 1) else 0);
      MulShiftOne(f, y, k - 1);
    }
  }

  lemma MulZero(f: Field, x: nat)
    ensures Mul(f, x, 0) == 0
  {
    MulXorRight(f, x, 0, 0);
    XorSelf(Mul(f, x, 0));
  }

  lemma MulShiftOne(f: Field, y: nat, j: nat)
    requires Valid(f) && In(f, y)
    ensures Mul(f, y, Shift(f, One(f), j)) == Shift(f, y, j)
  {
    SumShift(f, One(f), y, f.n, j);
    MulOneRight(f, y);
  }

  lemma MulComm(f: Field, x: nat, y: nat)
    requires Valid(f) && In(f, x) && In(f, y)
    ensures Mul(f, x, y) == Mul(f, y, x)
  {
    SumIsMul(f, y, x, f.n);
    SumOne(f, x, f.n);
  }

  lemma MulShiftLeft(f: Field, x: nat, y: nat, j: nat)
    requires Valid(f) && In(f, x) && In(f, y)
    ensures Mul(f, Shift(f, x, j), y) == Shift(f, Mul(f, x, y), j)
  {
    ShiftIn(f, x, j);
    MulComm(f, Shift(f, x, j), y);
    SumShift(f, x, y, f.n, j);
    MulComm(f, x, y);
  }

  lemma {:induction false} SumAssoc(f: Field, x: nat, y: nat, z: nat, k: nat)
    requires Valid(f) && In(f, y) && In(f, z)
    ensures Sum(f, Mul(f, y, z), x, k) == Mul(f, Sum(f, y, x, k), z)
  {
    hide Xor, Shift, Mul;
    ZeroMul(f, z);
    if k > 0 {
      SumAssoc(f, x / 2, y, z, k - 1);
      MulXorLeft(f, Sum(f, y, x / 2, k - 1), if x % 2 == 1 then Shift(f, y, k - 1) else 0, z);
      MulShiftLeft(f, y, z, k - 1);
    }
  }

  lemma ZeroMul(f: Field, y: nat)
    ensures Mul(f, 0, y) == 0
  {
    MulXorLeft(f, 0, 0, y);
    XorSelf(Mul(f, 0, y));
  }

  lemma MulAssoc(f: Field, x: nat, y: nat, z: nat)
    requires Valid(f) && In(f, y) && In(f, z)
    ensures Mul(f, Mul(f, x, y), z) == Mul(f, x, Mul(f, y, z))
  {
    SumAssoc(f, x, y, z, f.n);
  }

  // ---- reference: schoolbook product and long division ---------------------------

  /** Coefficients, lowest power first. */
  type Coeffs = seq<bool>

  /** The coefficient list of an element. */
  function Coefficients(f: Field, v: nat): (c: Coeffs)
    ensures |c| == f.n
  {
    seq(f.n, i requires 0 <= i < f.n => Bit(v, f.n - 1 - i))
  }

  function Padding(n: nat): Coeffs {
    seq(n, _ => false)
  }

  /** Adds `b`, moved up by `at` powers, into `a`. */
  function AddAt(a: Coeffs, b: Coeffs, at: nat): (c: Coeffs)
    requires at + |b| <= |a|
    ensures |c| == |a|
  {
    seq(|a|, i requires 0 <= i < |a| =>
      if at <= i < at + |b| then a[i] != b[i - at] else a[i])
  }

  /** The product of two polynomials over GF(2), one shifted copy of `b` per term of `a`. */
  function PolyTimes(a: Coeffs, b: Coeffs): (c: Coeffs)
    ensures |c| == |a| + |b|
  {
    if a == [] then Padding(|b|)
    else
      var m := |a| - 1;
      var c := PolyTimes(a[..m], b) + [false];
      if a[m] then AddAt(c, b, m) else c
  }

  /** Long division by x^n - r: the residue below x^n. */
  function PolyMod(f: Field, c: Coeffs): (d: Coeffs)
    requires |c| >= f.n
    ensures |d| == f.n
    decreases |c|
  {
    if |c| == f.n then c
    else
      var m := |c| - 1;
      PolyMod(f, if c[m] then AddAt(c[..m], Coefficients(f, f.r), m - f.n) else c[..m])
  }

  /** The element a coefficient list stands for: the value of the polynomial at x. */
  function ValueAt(f: Field, c: Coeffs): nat
    requires Valid(f)
  {
    if c == [] then 0
    else
      var m := |c| - 1;
      Xor(ValueAt(f, c[..m]), if c[m] then Shift(f, One(f), m) else 0)
  }

  /** The value of the monomial of degree `k`, or zero. */
  function Term(f: Field, b: bool, k: nat): nat
    requires Valid(f)
  {
    if b then Shift(f, One(f), k) else 0
  }

  lemma ValueAppend(f: Field, c: Coeffs, b: bool)
    requires Valid(f)
    ensures ValueAt(f, c + [b]) == Xor(ValueAt(f, c), Term(f, b, |c|))
  {
    assert (c + [b])[..|c|] == c;
  }

  lemma {:induction false} ValueIn(f: Field, c: Coeffs)
    requires Valid(f)
    ensures In(f, ValueAt(f, c))
  {
    if c != [] {
      var m := |c| - 1;
      ValueIn(f, c[..m]);
      ShiftIn(f, One(f), m);
      XorBound(ValueAt(f, c[..m]), if c[m] then Shift(f, One(f), m) else 0, f.n);
    }
  }

  lemma {:induction false} ValuePadding(f: Field, n: nat)
    requires Valid(f)
    ensures ValueAt(f, Padding(n)) == 0
  {
    if n > 0 {
      ValuePadding(f, n - 1);
      assert Padding(n) == Padding(n - 1) + [false];
      ValueAppend(f, Padding(n - 1), false);
    }
  }

  lemma {:induction false} ValueAddAt(f: Field, a: Coeffs, b: Coeffs, at: nat)
    requires Valid(f) && at + |b| <= |a|
    ensures ValueAt(f, AddAt(a, b, at)) == Xor(ValueAt(f, a), Shift(f, ValueAt(f, b), at))
    decreases |a|
  {
    hide *;
    if |b| == 0 {
      AddNothing(f, a, b, at);
    } else {
      var m := |a| - 1;
      SplitLast(a);
      if at + |b| <= m {
        ValueAddAt(f, a[..m], b, at);
        AddAbove(f, a[..m], a[m], b, at);
      } else {
        var k := |b| - 1;
        SplitLast(b);
        ValueAddAt(f, a[..m], b[..k], at);
        AddTop(f, a[..m], a[m], b[..k], b[k], at);
      }
    }
  }

  lemma SplitLast(c: Coeffs)
    requires |c| > 0
    ensures c == c[..|c| - 1] + [c[|c| - 1]]
  {
  }

  lemma AddNothing(f: Field, a: Coeffs, b: Coeffs, at: nat)
    requires Valid(f) && |b| == 0 && at <= |a|
    ensures ValueAt(f, AddAt(a, b, at)) == Xor(ValueAt(f, a), Shift(f, ValueAt(f, b), at))
  {
    hide Xor, Shift;
    assert AddAt(a, b, at) == a;
    ShiftZero(f, at);
    XorZero(ValueAt(f, a));
  }

  lemma AddAtBelow(a: Coeffs, x: bool, b: Coeffs, at: nat)
    requires at + |b| <= |a|
    ensures AddAt(a + [x], b, at) == AddAt(a, b, at) + [x]
  {
  }

  /** The last coefficient of `a` is above `b`. */
  lemma AddAbove(f: Field, a: Coeffs, x: bool, b: Coeffs, at: nat)
    requires Valid(f) && at + |b| <= |a|
    requires ValueAt(f, AddAt(a, b, at)) == Xor(ValueAt(f, a), Shift(f, ValueAt(f, b), at))
    ensures ValueAt(f, AddAt(a + [x], b, at)) == Xor(ValueAt(f, a + [x]), Shift(f, ValueAt(f, b), at))
  {
    hide *;
    AddAtBelow(a, x, b, at);
    ValueAppend(f, AddAt(a, b, at), x);
    ValueAppend(f, a, x);
    AddLast(ValueAt(f, a), Shift(f, ValueAt(f, b), at), Term(f, x, |a|), 0);
  }

  lemma AddAtTop(a: Coeffs, x: bool, b: Coeffs, y: bool, at: nat)
    requires at + |b| == |a|
    ensures AddAt(a + [x], b + [y], at) == AddAt(a, b, at) + [x != y]
  {
  }

  /** The last coefficients of `a` and of the shifted `b` meet. */
  lemma AddTop(f: Field, a: Coeffs, x: bool, b: Coeffs, y: bool, at: nat)
    requires Valid(f) && at + |b| == |a|
    requires ValueAt(f, AddAt(a, b, at)) == Xor(ValueAt(f, a), Shift(f, ValueAt(f, b), at))
    ensures ValueAt(f, AddAt(a + [x], b + [y], at)) == Xor(ValueAt(f, a + [x]), Shift(f, ValueAt(f, b + [y]), at))
  {
    hide *;
    AddAtTop(a, x, b, y, at);
    ValueAppend(f, AddAt(a, b, at), x != y);
    ValueAppend(f, a, x);
    ValueAppend(f, b, y);
    AddTopTerms(f, ValueAt(f, a), ValueAt(f, b), x, y, |b|, at, |a|);
  }

  lemma AddTopTerms(f: Field, u: nat, v: nat, p: bool, q: bool, k: nat, at: nat, m: nat)
    requires Valid(f) && m == k + at
    ensures Xor(Xor(u, Shift(f, v, at)), Term(f, p != q, m))
            == Xor(Xor(u, Term(f, p, m)), Shift(f, Xor(v, Term(f, q, k)), at))
  {
    hide *;
    ShiftXor(f, v, Term(f, q, k), at);
    ShiftTerm(f, q, k, at);
    XorTerms(f, p, q, m);
    AddLast(u, Shift(f, v, at), Term(f, p, m), Term(f, q, m));
  }

  lemma ShiftTerm(f: Field, b: bool, k: nat, at: nat)
    requires Valid(f)
    ensures Shift(f, Term(f, b, k), at) == Term(f, b, k + at)
  {
    hide Shift;
    ShiftAdd(f, One(f), k, at);
    ShiftZero(f, at);
  }

  lemma XorTerms(f: Field, p: bool, q: bool, k: nat)
    requires Valid(f)
    ensures Xor(Term(f, p, k), Term(f, q, k)) == Term(f, p != q, k)
  {
    hide Xor, Shift;
    XorSelf(Shift(f, One(f), k));
    XorZero(Shift(f, One(f), k));
    XorZero(0);
  }

  lemma AddLast(a: nat, b: nat, c: nat, d: nat)
    ensures Xor(Xor(a, b), Xor(c, d)) == Xor(Xor(a, c), Xor(b, d))
    ensures Xor(c, 0) == c && Xor(b, 0) == b && Xor(0, d) == d
  {
    XorSwap(a, b, c, d);
    XorZero(c);
    XorZero(b);
    XorZero(d);
  }

  /** Taking values turns the schoolbook product into the field product. */
  lemma {:induction false} ValueTimes(f: Field, a: Coeffs, b: Coeffs)
    requires Valid(f)
    ensures ValueAt(f, PolyTimes(a, b)) == Mul(f, ValueAt(f, a), ValueAt(f, b))
  {
    hide Xor, Shift, Mul;
    var v := ValueAt(f, b);
    ValueIn(f, b);
    if a == [] {
      ValuePadding(f, |b|);
      ZeroMul(f, v);
    } else {
      var m := |a| - 1;
      ValueTimes(f, a[..m], b);
      var c := PolyTimes(a[..m], b) + [false];
      ValueAppend(f, PolyTimes(a[..m], b), false);
      XorZero(ValueAt(f, PolyTimes(a[..m], b)));
      XorZero(ValueAt(f, a[..m]));
      if a[m] {
        ValueAddAt(f, c, b, m);
        var t := Shift(f, One(f), m);
        MulXorLeft(f, ValueAt(f, a[..m]), t, v);
        Pow2Mono(f.n - 1, f.n);
        OneIn(f);
        ShiftIn(f, One(f), m);
        MulComm(f, t, v);
        MulShiftOne(f, v, m);
      }
    }
  }

  lemma OneIn(f: Field)
    requires Valid(f)
    ensures In(f, One(f))
  {
  }

  /** x^n is congruent to r, so dividing by x^n - r keeps the value. */
  lemma {:induction false} ValueMod(f: Field, c: Coeffs)
    requires Valid(f) && |c| >= f.n
    ensures ValueAt(f, PolyMod(f, c)) == ValueAt(f, c)
    decreases |c|
  {
    hide Xor, Shift, Coefficients;
    if |c| > f.n {
      var m := |c| - 1;
      XorZero(ValueAt(f, c[..m]));
      if c[m] {
        var g := Coefficients(f, f.r);
        ValueMod(f, AddAt(c[..m], g, m - f.n));
        ValueAddAt(f, c[..m], g, m - f.n);
        ValueOfCoefficients(f, f.r);
        ShiftFull(f);
        ShiftAdd(f, One(f), f.n, m - f.n);
      } else {
        ValueMod(f, c[..m]);
      }
    }
  }

  lemma ShiftFull(f: Field)
    requires Valid(f)
    ensures Shift(f, One(f), f.n) == f.r
  {
    ShiftOne(f, f.n - 1);
  }

  /** Coefficients of v from the top down to a given width, as a value. */
  lemma {:induction false} ValueOfPrefix(f: Field, v: nat, k: nat)
    requires Valid(f) && In(f, v) && k <= f.n
    ensures ValueAt(f, Coefficients(f, v)[..k]) == Sum(f, One(f), v / Pow2(f.n - k), k)
  {
    hide Xor, Shift;
    if k > 0 {
      ValueOfPrefix(f, v, k - 1);
      var c := Coefficients(f, v);
      var j := f.n - k;
      assert c[..k] == c[..k - 1] + [c[k - 1]];
      ValueAppend(f, c[..k - 1], c[k - 1]);
      DivDiv(v, Pow2(j));
      BitShiftDown(v, j, j);
    }
  }

  lemma ValueOfCoefficients(f: Field, v: nat)
    requires Valid(f) && In(f, v)
    ensures ValueAt(f, Coefficients(f, v)) == v
  {
    ValueOfPrefix(f, v, f.n);
    assert Coefficients(f, v)[..f.n] == Coefficients(f, v);
    SumOne(f, v, f.n);
  }

  lemma {:induction false} ValueBits(f: Field, c: Coeffs, i: nat)
    requires Valid(f) && |c| <= f.n && i < f.n
    ensures Bit(ValueAt(f, c), f.n - 1 - i) == (i < |c| && c[i])
  {
    hide Xor, Shift;
    if c == [] {
      BitZero(f.n - 1 - i);
    } else {
      var m := |c| - 1;
      ValueBits(f, c[..m], i);
      ShiftOne(f, m);
      BitPow2(f.n - 1 - m, f.n - 1 - i);
      BitZero(f.n - 1 - i);
      BitXor(ValueAt(f, c[..m]), if c[m] then Shift(f, One(f), m) else 0, f.n - 1 - i);
    }
  }

  /** Coefficient by coefficient, the product is the schoolbook product reduced by long division. */
  lemma MulIsPolynomialProduct(f: Field, x: nat, y: nat)
    requires Valid(f) && In(f, x) && In(f, y)
    ensures Coefficients(f, Mul(f, x, y))
         == PolyMod(f, PolyTimes(Coefficients(f, x), Coefficients(f, y)))
  {
    hide Mul, ValueAt;
    ValueOfCoefficients(f, x);
    ValueOfCoefficients(f, y);
    var c := PolyMod(f, PolyTimes(Coefficients(f, x), Coefficients(f, y)));
    ValueTimes(f, Coefficients(f, x), Coefficients(f, y));
    ValueMod(f, PolyTimes(Coefficients(f, x), Coefficients(f, y)));
    forall i | 0 <= i < f.n ensures Coefficients(f, Mul(f, x, y))[i] == c[i] {
      ValueBits(f, c, i);
    }
  }
}
