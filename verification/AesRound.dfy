/** The AES round transformations and their inverses, sections 4.2, 5.1 and 5.3 of FIPS 197. */
module AesRound {
  import opened Bits
  import opened ByteField
  import opened AesTables

  const AES_POLY: Modulus := 0x11B

  /** Sixteen bytes, column-major: byte `row + 4 * col`. */
  type Block = s: seq<Byte> | |s| == 16 witness seq(16, _ => 0)

  function Xtime(a: Byte): Byte {
    Double(AES_POLY, a)
  }

  /** The shift-and-add loop computes the product modulo the AES polynomial. */
  method Mul(x: Byte, y: Byte) returns (result: Byte)
    ensures result == Product(AES_POLY, x, y)
  {
    hide Xor;
    var a, b := x, y;
    result := 0;
    XorZero(Product(AES_POLY, x, y));
    while b != 0
      invariant Product(AES_POLY, x, y) == Xor(result, Product(AES_POLY, a, b))
    {
      ghost var rest := Product(AES_POLY, Xtime(a), b / 2);
      ProductStep(AES_POLY, a, b);
      if b % 2 == 1 {
        XorAssoc(result, a, rest);
        result := XorByte(result, a);
      } else {
        XorZero(rest);
      }
      a := Xtime(a);
      b := b / 2;
    }
    XorZero(result);
  }

  lemma TimesTwoThree(a: Byte)
    ensures Product(AES_POLY, a, 2) == Xtime(a)
    ensures Product(AES_POLY, a, 3) == Xor(a, Xtime(a))
  {
    var two: Byte, three: Byte, one: Byte := 2, 3, 1;
    ProductStep(AES_POLY, a, two);
    ProductStep(AES_POLY, a, three);
    ProductUnit(AES_POLY, Xtime(a));
    XorZero(Xtime(a));
  }

  // ---- the four transformations ------------------------------------------

  function AddKey(s: Block, k: Block): Block {
    seq(16, i requires 0 <= i < 16 => XorByte(s[i], k[i]))
  }

  function SubBytes(s: Block): Block {
    seq(16, i requires 0 <= i < 16 => SubByte(s[i]))
  }

  function InvSubBytes(s: Block): Block {
    seq(16, i requires 0 <= i < 16 => InvSubByte(s[i]))
  }

  function Turn(col: nat, steps: nat): (c: nat)
    requires col < 4 && steps <= 4
    ensures c < 4
  {
    if col + steps < 4 then col + steps else col + steps - 4
  }

  lemma TurnIsModular(col: nat, steps: nat)
    requires col < 4 && steps <= 4
    ensures Turn(col, steps) == (col + steps) % 4
  {
  }

  /** Where byte i comes from: its row r has rotated left by r columns. */
  function ShiftSource(i: nat): (r: nat)
    requires i < 16
    ensures r < 16 && r % 4 == i % 4
  {
    i % 4 + 4 * Turn(i / 4, i % 4)
  }

  function ShiftRows(s: Block): Block {
    seq(16, i requires 0 <= i < 16 => s[ShiftSource(i)])
  }

  function UnshiftSource(i: nat): (r: nat)
    requires i < 16
    ensures r < 16 && r % 4 == i % 4
  {
    i % 4 + 4 * Turn(i / 4, 4 - i % 4)
  }

  function InvShiftRows(s: Block): Block {
    seq(16, i requires 0 <= i < 16 => s[UnshiftSource(i)])
  }

  datatype Column = Column(a: Byte, b: Byte, c: Byte, d: Byte)

  /** 2u + 3v + w + z, in the order the program adds them. */
  function MixRow(u: Byte, v: Byte, w: Byte, z: Byte): Byte {
    XorByte(XorByte(XorByte(Product(AES_POLY, u, 2), Product(AES_POLY, v, 3)), w), z)
  }

  function MixColumn(x: Column): Column {
    Column(MixRow(x.a, x.b, x.c, x.d),
           MixRow(x.b, x.c, x.d, x.a),
           MixRow(x.c, x.d, x.a, x.b),
           MixRow(x.d, x.a, x.b, x.c))
  }

  function ColumnOf(s: Block, c: nat): Column
    requires c < 4
  {
    Column(s[4 * c], s[4 * c + 1], s[4 * c + 2], s[4 * c + 3])
  }

  function Cells(x: Column): (r: seq<Byte>)
    ensures |r| == 4
  {
    [x.a, x.b, x.c, x.d]
  }

  function MixColumns(s: Block): Block {
    seq(16, i requires 0 <= i < 16 => Cells(MixColumn(ColumnOf(s, i / 4)))[i % 4])
  }

  /** Mixing has order four, so three more applications undo it. */
  function InvMixColumns(s: Block): Block {
    MixColumns(MixColumns(MixColumns(s)))
  }

  // ---- inverses ------------------------------------------------------------

  lemma AddKeyInverse(s: Block, k: Block)
    ensures AddKey(AddKey(s, k), k) == s
  {
    forall i | 0 <= i < 16 ensures AddKey(AddKey(s, k), k)[i] == s[i] {
      XorCancel(s[i], k[i]);
    }
  }

  lemma SubBytesInverse(s: Block)
    ensures InvSubBytes(SubBytes(s)) == s
    ensures SubBytes(InvSubBytes(s)) == s
  {
    hide SubByte, InvSubByte;
    forall i | 0 <= i < 16
      ensures InvSubBytes(SubBytes(s))[i] == s[i] && SubBytes(InvSubBytes(s))[i] == s[i]
    {
      SubByteInverse(s[i]);
    }
  }

  lemma SourceOf(row: nat, col: nat)
    requires row < 4 && col < 4
    ensures ShiftSource(row + 4 * col) == row + 4 * Turn(col, row)
    ensures UnshiftSource(row + 4 * col) == row + 4 * Turn(col, 4 - row)
    ensures (row + 4 * col) % 4 == row && (row + 4 * col) / 4 == col
  {
    hide Turn;
    RowAndColumn(row, col);
    SourceForm(row + 4 * col, row, col);
  }

  lemma RowAndColumn(row: nat, col: nat)
    requires row < 4
    ensures (row + 4 * col) % 4 == row && (row + 4 * col) / 4 == col
  {
  }

  lemma SourceForm(i: nat, row: nat, col: nat)
    requires i < 16 && i % 4 == row && i / 4 == col
    ensures ShiftSource(i) == row + 4 * Turn(col, row)
    ensures UnshiftSource(i) == row + 4 * Turn(col, 4 - row)
  {
    hide Turn;
  }

  lemma SourcesInverse(i: nat)
    requires i < 16
    ensures UnshiftSource(ShiftSource(i)) == i
    ensures ShiftSource(UnshiftSource(i)) == i
  {
    hide ShiftSource, UnshiftSource;
    SourcesInverseAt(i % 4, i / 4, i);
  }

  lemma SourcesInverseAt(row: nat, col: nat, i: nat)
    requires row < 4 && col < 4 && i == row + 4 * col
    ensures UnshiftSource(ShiftSource(i)) == i
    ensures ShiftSource(UnshiftSource(i)) == i
  {
    hide ShiftSource, UnshiftSource;
    SourceOf(row, col);
    SourceOf(row, Turn(col, row));
    SourceOf(row, Turn(col, 4 - row));
  }

  lemma ShiftRowsInverse(s: Block)
    ensures InvShiftRows(ShiftRows(s)) == s
    ensures ShiftRows(InvShiftRows(s)) == s
  {
    hide ShiftSource, UnshiftSource;
    forall i | 0 <= i < 16
      ensures InvShiftRows(ShiftRows(s))[i] == s[i] && ShiftRows(InvShiftRows(s))[i] == s[i]
    {
      SourcesInverse(i);
    }
  }

  // ---- mixing has order four ------------------------------------------------

  function Sum4(a: Byte, b: Byte, c: Byte, d: Byte): Byte {
    XorByte(XorByte(a, b), XorByte(c, d))
  }

  /** 2u + 3v + w + z == u + (u + v + w + z) + 2(u + v) */
  lemma MixRowForm(u: Byte, v: Byte, w: Byte, z: Byte)
    ensures MixRow(u, v, w, z) == Xor(Xor(u, Sum4(u, v, w, z)), Xtime(XorByte(u, v)))
  {
    TimesTwoThree(u);
    TimesTwoThree(v);
    DoubleXor(AES_POLY, u, v);
    Gather(u, v, w, z, Xtime(u), Xtime(v));
  }

  lemma Gather(u: nat, v: nat, w: nat, z: nat, du: nat, dv: nat)
    ensures Xor(Xor(Xor(du, Xor(v, dv)), w), z)
         == Xor(Xor(u, Xor(Xor(u, v), Xor(w, z))), Xor(du, dv))
  {
    hide Xor;
    var x := Xor(Xor(Xor(du, Xor(v, dv)), w), z);
    var y := Xor(Xor(u, Xor(Xor(u, v), Xor(w, z))), Xor(du, dv));
    forall i: nat ensures Bit(x, i) == Bit(y, i) {
      BitXor(v, dv, i);
      BitXor(du, Xor(v, dv), i);
      BitXor(Xor(du, Xor(v, dv)), w, i);
      BitXor(Xor(Xor(du, Xor(v, dv)), w), z, i);
      BitXor(u, v, i);
      BitXor(w, z, i);
      BitXor(Xor(u, v), Xor(w, z), i);
      BitXor(u, Xor(Xor(u, v), Xor(w, z)), i);
      BitXor(du, dv, i);
      BitXor(Xor(u, Xor(Xor(u, v), Xor(w, z))), Xor(du, dv), i);
    }
    BitsDetermine(x, y);
  }

  function Row(u: Byte, v: Byte, s: Byte): Byte {
    XorByte(XorByte(u, s), Xtime(XorByte(u, v)))
  }

  lemma Sum4Rotates(a: Byte, b: Byte, c: Byte, d: Byte)
    ensures Sum4(b, c, d, a) == Sum4(a, b, c, d)
  {
    hide Xor;
    XorComm(XorByte(b, c), XorByte(d, a));
    XorComm(d, a);
    XorSwap(a, d, b, c);
    XorComm(d, c);
  }

  lemma MixColumnRows(x: Column)
    ensures var s := Sum4(x.a, x.b, x.c, x.d);
            MixColumn(x) == Column(Row(x.a, x.b, s), Row(x.b, x.c, s),
                                   Row(x.c, x.d, s), Row(x.d, x.a, s))
  {
    hide Xor, Xtime, MixRow, Sum4;
    MixRowForm(x.a, x.b, x.c, x.d);
    MixRowForm(x.b, x.c, x.d, x.a);
    MixRowForm(x.c, x.d, x.a, x.b);
    MixRowForm(x.d, x.a, x.b, x.c);
    Sum4Rotates(x.a, x.b, x.c, x.d);
    Sum4Rotates(x.b, x.c, x.d, x.a);
    Sum4Rotates(x.c, x.d, x.a, x.b);
  }

  /** Adjacent rows differ by (u + v) + 2(u + w). */
  lemma RowPair(u: Byte, v: Byte, w: Byte, s: Byte)
    ensures Xor(Row(u, v, s), Row(v, w, s)) == Xor(Xor(u, v), Xtime(XorByte(u, w)))
  {
    hide Xor, Double;
    DoubleXor(AES_POLY, u, v);
    DoubleXor(AES_POLY, v, w);
    DoubleXor(AES_POLY, u, w);
    XorSwap(XorByte(u, s), Xtime(XorByte(u, v)), XorByte(v, s), Xtime(XorByte(v, w)));
    XorShared(u, s, v);
    XorShared(Xtime(u), Xtime(v), Xtime(w));
  }

  /** Mixing keeps the sum of a column. */
  lemma MixKeepsSum(a: Byte, b: Byte, c: Byte, d: Byte, s: Byte)
    ensures Sum4(Row(a, b, s), Row(b, c, s), Row(c, d, s), Row(d, a, s)) == Sum4(a, b, c, d)
  {
    hide Xor, Xtime, Row;
    RowPair(a, b, c, s);
    RowPair(c, d, a, s);
    XorComm(a, c);
    XorShared(XorByte(a, b), Xtime(XorByte(a, c)), XorByte(c, d));
  }

  /** The first entry after mixing twice: u + 4(u + w). */
  lemma MixTwiceRow(u: Byte, v: Byte, w: Byte, s: Byte)
    ensures Row(Row(u, v, s), Row(v, w, s), s) == Xor(u, Xtime(Xtime(XorByte(u, w))))
  {
    hide Xor, Double;
    RowPair(u, v, w, s);
    var duv, ddw := Xtime(XorByte(u, v)), Xtime(Xtime(XorByte(u, w)));
    DoubleXor(AES_POLY, XorByte(u, v), Xtime(XorByte(u, w)));
    XorAssoc(XorByte(u, s), duv, s);
    XorComm(duv, s);
    XorAssoc(XorByte(u, s), s, duv);
    XorCancel(u, s);
    XorAssoc(u, duv, XorByte(duv, ddw));
    XorCancel(duv, ddw);
  }

  lemma MixTwice(x: Column)
    ensures MixColumn(MixColumn(x))
         == Column(XorByte(x.a, Xtime(Xtime(XorByte(x.a, x.c)))),
                   XorByte(x.b, Xtime(Xtime(XorByte(x.b, x.d)))),
                   XorByte(x.c, Xtime(Xtime(XorByte(x.c, x.a)))),
                   XorByte(x.d, Xtime(Xtime(XorByte(x.d, x.b)))))
  {
    hide Xor, Xtime, Row, MixColumn, Sum4;
    var s := Sum4(x.a, x.b, x.c, x.d);
    MixColumnRows(x);
    MixColumnRows(MixColumn(x));
    MixKeepsSum(x.a, x.b, x.c, x.d, s);
    MixTwiceRow(x.a, x.b, x.c, s);
    MixTwiceRow(x.b, x.c, x.d, s);
    MixTwiceRow(x.c, x.d, x.a, s);
    MixTwiceRow(x.d, x.a, x.b, s);
  }

  /** u + 4(u + w) and w + 4(w + u), mapped again, give back u. */
  lemma UnmixRow(u: Byte, w: Byte)
    ensures var p, q := XorByte(u, Xtime(Xtime(XorByte(u, w)))), XorByte(w, Xtime(Xtime(XorByte(w, u))));
            XorByte(p, Xtime(Xtime(XorByte(p, q)))) == u
  {
    hide Xor, Xtime;
    var t := Xtime(Xtime(XorByte(u, w)));
    XorComm(u, w);
    XorShared(u, t, w);
    XorCancel(u, t);
  }

  lemma MixOrderFour(x: Column)
    ensures MixColumn(MixColumn(MixColumn(MixColumn(x)))) == x
  {
    hide Xor, Xtime, MixColumn;
    MixTwice(x);
    MixTwice(MixColumn(MixColumn(x)));
    UnmixRow(x.a, x.c);
    UnmixRow(x.b, x.d);
    UnmixRow(x.c, x.a);
    UnmixRow(x.d, x.b);
  }

  lemma ColumnMixed(s: Block, c: nat)
    requires c < 4
    ensures ColumnOf(MixColumns(s), c) == MixColumn(ColumnOf(s, c))
  {
    hide MixColumn;
    var t := MixColumns(s);
    assert t[4 * c] == MixColumn(ColumnOf(s, c)).a;
    assert t[4 * c + 1] == MixColumn(ColumnOf(s, c)).b;
    assert t[4 * c + 2] == MixColumn(ColumnOf(s, c)).c;
    assert t[4 * c + 3] == MixColumn(ColumnOf(s, c)).d;
  }

  lemma SameColumns(s: Block, t: Block)
    requires forall c :: 0 <= c < 4 ==> ColumnOf(s, c) == ColumnOf(t, c)
    ensures s == t
  {
    forall i | 0 <= i < 16 ensures s[i] == t[i] {
      assert ColumnOf(s, i / 4) == ColumnOf(t, i / 4);
      assert i == 4 * (i / 4) + i % 4;
    }
  }

  lemma MixColumnsInverse(s: Block)
    ensures InvMixColumns(MixColumns(s)) == s
    ensures MixColumns(InvMixColumns(s)) == s
  {
    hide MixColumn, MixColumns, ColumnOf;
    var s1 := MixColumns(s);
    var s2 := MixColumns(s1);
    var s3 := MixColumns(s2);
    forall c | 0 <= c < 4 ensures ColumnOf(MixColumns(s3), c) == ColumnOf(s, c) {
      ColumnMixed(s, c);
      ColumnMixed(s1, c);
      ColumnMixed(s2, c);
      ColumnMixed(s3, c);
      MixOrderFour(ColumnOf(s, c));
    }
    SameColumns(MixColumns(s3), s);
  }
}
