/** GF(256) of the QR encoder: exponent and logarithm tables for 0x11D. */
module QrField {
  import opened Bits
  import opened ByteField

  const POLY: Modulus := 0x11D

  /** Field multiplication, the reference the tables are measured against. */
  function Mul(a: Byte, b: Byte): Byte {
    Product(POLY, a, b)
  }

  /** The i-th power of the generator x. */
  function Alpha(i: nat): Byte {
    Shift(POLY, 1, i)
  }

  lemma AlphaAdd(i: nat, j: nat)
    ensures Alpha(i + j) == Mul(Alpha(i), Alpha(j))
  {
    ProductShiftLeft(POLY, 1, Alpha(j), i);
    ProductUnitLeft(POLY, Alpha(j));
    ShiftAdd(1, j, i);
  }

  lemma {:induction false} ShiftAdd(a: Byte, i: nat, j: nat)
    ensures Shift(POLY, Shift(POLY, a, i), j) == Shift(POLY, a, i + j)
  {
    if j > 0 {
      ShiftAdd(a, i, j - 1);
    }
  }

  // ---- the generator has order 255 -------------------------------------

  /** Doubling in closed form: the reduction flips bits 2, 3, 4 and sets bit 0. */
  function Next(v: Byte): int {
    if v < 128 then 2 * v else 2 * v - 227 - 8 * (v / 2 % 8)
  }

  lemma FlipHigh(w: nat, c: nat, d: nat)
    requires 8 <= w < 16 && c < 2 && d < 2
    ensures Xor(4 * w + 2 * c + d, 35) == 4 * (w - 8) + 2 * (1 - c) + (1 - d)
  {
    XorTop(w, 8);
    XorAppend(w, c, 8, 1);
    XorAppend(2 * w + c, d, 17, 1);
  }

  /** `v ^ 142` where 142 == 0b10001110 and v == 16w + 8c + 4d + 2e + f has its top bit set. */
  lemma FlipDigits(w: nat, c: nat, d: nat, e: nat, f: nat)
    requires 8 <= w < 16 && c < 2 && d < 2 && e < 2 && f < 2
    ensures Xor(16 * w + 8 * c + 4 * d + 2 * e + f, 142)
         == 16 * (w - 8) + 8 * (1 - c) + 4 * (1 - d) + 2 * (1 - e) + f
  {
    FlipHigh(w, c, d);
    XorAppend(4 * w + 2 * c + d, e, 35, 1);
    XorAppend(8 * w + 4 * c + 2 * d + e, f, 71, 0);
  }

  lemma Digits(v: Byte)
    ensures v == 16 * (v / 16) + 8 * (v / 8 % 2) + 4 * (v / 4 % 2) + 2 * (v / 2 % 2) + v % 2
    ensures v / 2 % 8 == 4 * (v / 8 % 2) + 2 * (v / 4 % 2) + v / 2 % 2
  {
    var v1 := v / 2;
    var v2 := v1 / 2;
    var v3 := v2 / 2;
    var v4 := v3 / 2;
    assert v / 4 == v2 && v / 8 == v3 && v / 16 == v4;
    assert v1 == 8 * v4 + 4 * (v3 % 2) + 2 * (v2 % 2) + v1 % 2;
  }

  lemma XorTop(w: nat, c: nat)
    requires c <= w < 2 * c && (c == 8 || c == 4 || c == 2 || c == 1)
    ensures Xor(w, c) == w - c
  {
    if c > 1 {
      XorTop(w / 2, c / 2);
      XorAppend(w / 2, w % 2, c / 2, 0);
    }
  }

  lemma NextIsDouble(v: Byte)
    ensures Double(POLY, v) == Next(v)
  {
    if v >= 128 {
      Digits(v);
      FlipDigits(v / 16, v / 8 % 2, v / 4 % 2, v / 2 % 2, v % 2);
      XorAppend(v, 0, 142, 1);
    }
  }

  lemma AlphaNext(s: nat, v: Byte, w: Byte)
    requires Alpha(s) == v && Next(v) == w
    ensures Alpha(s + 1) == w
  {
    NextIsDouble(v);
  }

  /** Five consecutive powers, none of the first four equal to 1. */
  lemma Walk5(s: nat, v0: Byte, v1: Byte, v2: Byte, v3: Byte, v4: Byte, v5: Byte)
    requires Alpha(s) == v0
    requires Next(v0) == v1 && Next(v1) == v2 && Next(v2) == v3 && Next(v3) == v4 && Next(v4) == v5
    requires v1 != 1 && v2 != 1 && v3 != 1 && v4 != 1
    ensures Alpha(s + 5) == v5
    ensures forall d :: s < d < s + 5 ==> Alpha(d) != 1
  {
    hide Alpha, Next;
    AlphaNext(s, v0, v1);
    AlphaNext(s + 1, v1, v2);
    AlphaNext(s + 2, v2, v3);
    AlphaNext(s + 3, v3, v4);
    AlphaNext(s + 4, v4, v5);
  }

  /** Fifteen consecutive powers, none of the inner ones equal to 1. */
  lemma Walk15(s: nat, v0: Byte, v1: Byte, v2: Byte, v3: Byte, v4: Byte, v5: Byte, v6: Byte, v7: Byte, v8: Byte, v9: Byte, v10: Byte, v11: Byte, v12: Byte, v13: Byte, v14: Byte, v15: Byte)
    requires Alpha(s) == v0
    requires Next(v0) == v1 && Next(v1) == v2 && Next(v2) == v3 && Next(v3) == v4 && Next(v4) == v5
    requires Next(v5) == v6 && Next(v6) == v7 && Next(v7) == v8 && Next(v8) == v9 && Next(v9) == v10
    requires Next(v10) == v11 && Next(v11) == v12 && Next(v12) == v13 && Next(v13) == v14 && Next(v14) == v15
    requires v1 != 1 && v2 != 1 && v3 != 1 && v4 != 1 && v5 != 1 && v6 != 1 && v7 != 1
    requires v8 != 1 && v9 != 1 && v10 != 1 && v11 != 1 && v12 != 1 && v13 != 1 && v14 != 1
    ensures Alpha(s + 15) == v15
    ensures forall d :: s < d < s + 15 ==> Alpha(d) != 1
  {
    hide Alpha, Next;
    Walk5(s, v0, v1, v2, v3, v4, v5);
    Walk5(s + 5, v5, v6, v7, v8, v9, v10);
    Walk5(s + 10, v10, v11, v12, v13, v14, v15);
  }

  lemma Powers0(s: nat)
    requires Alpha(s) == 1
    ensures Alpha(s + 30) == 96
    ensures forall d :: s < d < s + 30 ==> Alpha(d) != 1
  {
    hide Alpha;
    Walk15(s, 1, 2, 4, 8, 16, 32, 64, 128, 29, 58, 116, 232, 205, 135, 19, 38);
    Walk15(s + 15, 38, 76, 152, 45, 90, 180, 117, 234, 201, 143, 3, 6, 12, 24, 48, 96);
  }

  lemma Powers30(s: nat)
    requires Alpha(s) == 96
    ensures Alpha(s + 30) == 185
    ensures forall d :: s < d < s + 30 ==> Alpha(d) != 1
  {
    hide Alpha;
    Walk15(s, 96, 192, 157, 39, 78, 156, 37, 74, 148, 53, 106, 212, 181, 119, 238, 193);
    Walk15(s + 15, 193, 159, 35, 70, 140, 5, 10, 20, 40, 80, 160, 93, 186, 105, 210, 185);
  }

  lemma Powers60(s: nat)
    requires Alpha(s) == 185
    ensures Alpha(s + 30) == 223
    ensures forall d :: s < d < s + 30 ==> Alpha(d) != 1
  {
    hide Alpha;
    Walk15(s, 185, 111, 222, 161, 95, 190, 97, 194, 153, 47, 94, 188, 101, 202, 137, 15);
    Walk15(s + 15, 15, 30, 60, 120, 240, 253, 231, 211, 187, 107, 214, 177, 127, 254, 225, 223);
  }

  lemma Powers90(s: nat)
    requires Alpha(s) == 223
    ensures Alpha(s + 30) == 59
    ensures forall d :: s < d < s + 30 ==> Alpha(d) != 1
  {
    hide Alpha;
    Walk15(s, 223, 163, 91, 182, 113, 226, 217, 175, 67, 134, 17, 34, 68, 136, 13, 26);
    Walk15(s + 15, 26, 52, 104, 208, 189, 103, 206, 129, 31, 62, 124, 248, 237, 199, 147, 59);
  }

  lemma Powers120(s: nat)
    requires Alpha(s) == 59
    ensures Alpha(s + 30) == 85
    ensures forall d :: s < d < s + 30 ==> Alpha(d) != 1
  {
    hide Alpha;
    Walk15(s, 59, 118, 236, 197, 151, 51, 102, 204, 133, 23, 46, 92, 184, 109, 218, 169);
    Walk15(s + 15, 169, 79, 158, 33, 66, 132, 21, 42, 84, 168, 77, 154, 41, 82, 164, 85);
  }

  lemma Powers150(s: nat)
    requires Alpha(s) == 85
    ensures Alpha(s + 30) == 150
    ensures forall d :: s < d < s + 30 ==> Alpha(d) != 1
  {
    hide Alpha;
    Walk15(s, 85, 170, 73, 146, 57, 114, 228, 213, 183, 115, 230, 209, 191, 99, 198, 145);
    Walk15(s + 15, 145, 63, 126, 252, 229, 215, 179, 123, 246, 241, 255, 227, 219, 171, 75, 150);
  }

  lemma Powers180(s: nat)
    requires Alpha(s) == 150
    ensures Alpha(s + 30) == 89
    ensures forall d :: s < d < s + 30 ==> Alpha(d) != 1
  {
    hide Alpha;
    Walk15(s, 150, 49, 98, 196, 149, 55, 110, 220, 165, 87, 174, 65, 130, 25, 50, 100);
    Walk15(s + 15, 100, 200, 141, 7, 14, 28, 56, 112, 224, 221, 167, 83, 166, 81, 162, 89);
  }

  lemma Powers210(s: nat)
    requires Alpha(s) == 89
    ensures Alpha(s + 30) == 44
    ensures forall d :: s < d < s + 30 ==> Alpha(d) != 1
  {
    hide Alpha;
    Walk15(s, 89, 178, 121, 242, 249, 239, 195, 155, 43, 86, 172, 69, 138, 9, 18, 36);
    Walk15(s + 15, 36, 72, 144, 61, 122, 244, 245, 247, 243, 251, 235, 203, 139, 11, 22, 44);
  }

  lemma Powers240(s: nat)
    requires Alpha(s) == 44
    ensures Alpha(s + 15) == 1
    ensures forall d :: s < d < s + 15 ==> Alpha(d) != 1
  {
    hide Alpha;
    Walk15(s, 44, 88, 176, 125, 250, 233, 207, 131, 27, 54, 108, 216, 173, 71, 142, 1);
  }

  lemma AlphaZero() returns (s: nat)
    ensures s == 0 && Alpha(s) == 1
  {
    s := 0;
  }

  /** x generates the multiplicative group: its first 255 powers are distinct. */
  lemma AlphaOrder(n: nat)
    requires n == 255
    ensures Alpha(n) == 1
    ensures forall d :: 0 < d < n ==> Alpha(d) != 1
  {
    hide *;
    var s := AlphaZero();
    Powers0(s);
    Powers30(s + 30);
    Powers60(s + 60);
    Powers90(s + 90);
    Powers120(s + 120);
    Powers150(s + 150);
    Powers180(s + 180);
    Powers210(s + 210);
    Powers240(s + 240);
  }

  lemma {:induction false} AlphaNonzero(i: nat)
    ensures Alpha(i) != 0
  {
    if i > 0 {
      AlphaNonzero(i - 1);
      if Alpha(i) == 0 {
        DoubleInjective(POLY, Alpha(i - 1), 0);
      }
    }
  }

  lemma {:induction false} AlphaBack(i: nat, d: nat)
    requires Alpha(i) == Alpha(i + d)
    ensures Alpha(d) == 1
  {
    if i > 0 {
      DoubleInjective(POLY, Alpha(i - 1), Alpha(i - 1 + d));
      AlphaBack(i - 1, d);
    }
  }

  lemma AlphaInjective(i: nat, j: nat)
    requires i < j < 255
    ensures Alpha(i) != Alpha(j)
  {
    if Alpha(i) == Alpha(j) {
      AlphaBack(i, j - i);
      AlphaOrder(255);
    }
  }

  lemma AlphaPeriod(i: nat, n: nat)
    requires n == 255
    ensures Alpha(i + n) == Alpha(i)
  {
    AlphaAdd(i, n);
    AlphaOrder(n);
    ProductUnit(POLY, Alpha(i));
  }

  // ---- every nonzero byte is a power: counting argument ----------------

  function Powers(n: nat): set<Byte> {
    if n == 0 then {} else Powers(n - 1) + {Alpha(n - 1)}
  }

  lemma {:induction false} PowersMember(n: nat, v: Byte) returns (i: nat)
    requires v in Powers(n)
    ensures i < n && Alpha(i) == v
  {
    if v == Alpha(n - 1) {
      i := n - 1;
    } else {
      i := PowersMember(n - 1, v);
    }
  }

  lemma {:induction false} PowersCount(n: nat)
    requires n <= 255
    ensures |Powers(n)| == n
    ensures 0 !in Powers(n)
  {
    if n > 0 {
      PowersCount(n - 1);
      AlphaNonzero(n - 1);
      if Alpha(n - 1) in Powers(n - 1) {
        var i := PowersMember(n - 1, Alpha(n - 1));
        AlphaInjective(i, n - 1);
      }
    }
  }

  lemma {:induction false} BelowCount(s: set<nat>, n: nat)
    requires forall v :: v in s ==> v < n
    ensures |s| <= n
  {
    if n == 0 {
      assert s == {};
    } else {
      BelowCount(s - {n - 1}, n - 1);
    }
  }

  lemma Discrete(v: Byte) returns (i: nat)
    requires v != 0
    ensures i < 255 && Alpha(i) == v
  {
    hide Powers, Alpha;
    var n := 255;
    PowersCount(n);
    var s: set<nat> := Powers(n) + {0};
    if v !in s {
      BelowCount(s + {v}, 256);
    }
    i := PowersMember(n, v);
  }

  // ---- the tables ------------------------------------------------------

  datatype Tables = Tables(exp: seq<Byte>, log: seq<Byte>)

  ghost predicate Correct(t: Tables) {
    && |t.exp| == 512
    && |t.log| == 256
    && (forall i :: 0 <= i < 512 ==> t.exp[i] == Alpha(i))
    && (forall v: Byte :: v != 0 ==> t.log[v] < 255 && Alpha(t.log[v]) == v)
  }

  lemma AlphaStep(i: nat)
    ensures Alpha(i + 1)
         == if 2 * Alpha(i) >= 0x100 then Xor(2 * Alpha(i), 0x11D) else 2 * Alpha(i)
  {
  }

  method BuildTables() returns (t: Tables)
    ensures Correct(t)
  {
    var start := AlphaZero();
    hide Alpha, Xor;
    var exp := new Byte[512](_ => 0);
    var log := new Byte[256](_ => 0);
    var value: nat := 1;
    for i := 0 to 255
      invariant value == Alpha(i)
      invariant forall k :: 0 <= k < i ==> exp[k] == Alpha(k)
      invariant forall k :: 0 <= k < i ==> log[Alpha(k)] == k
    {
      exp[i] := value;
      forall k | 0 <= k < i ensures Alpha(k) != value {
        AlphaInjective(k, i);
      }
      log[value] := i;
      AlphaStep(i);
      value := 2 * value;
      if value >= 0x100 {
        value := Xor(value, 0x11D);
      }
    }
    for i := 255 to 512
      invariant forall k :: 0 <= k < i ==> exp[k] == Alpha(k)
      invariant forall k :: 0 <= k < 255 ==> log[Alpha(k)] == k
    {
      exp[i] := exp[i - 255];
      AlphaPeriod(i - 255, 255);
    }
    t := Tables(exp[..], log[..]);
    forall v: Byte | v != 0 ensures t.log[v] < 255 && Alpha(t.log[v]) == v {
      var k := Discrete(v);
    }
  }

  /** Table multiplication agrees with polynomial multiplication on all bytes. */
  function GfMul(t: Tables, a: Byte, b: Byte): (r: Byte)
    requires Correct(t)
    ensures r == Mul(a, b)
  {
    if a == 0 || b == 0 then
      ProductUnit(POLY, a);
      ProductZeroLeft(POLY, b);
      0
    else
      var i: nat, j: nat := t.log[a], t.log[b];
      AlphaAdd(i, j);
      t.exp[i + j]
  }
}
