/** Key schedule and rounds byte by byte, sections 5.1 and 5.2 of FIPS 197. */
module AesSchedule {
  import opened Bits
  import opened ByteField
  import opened AesTables
  import opened AesRound
  import opened AesCipher
  import opened AesSbox

  // ---- the schedule ------------------------------------------------------------------------

  /** Byte j of word i of the round keys. */
  function ByteOf(roundKeys: seq<Block>, i: nat, j: nat): Byte
    requires i < 4 * |roundKeys| && j < 4
  {
    roundKeys[i / 4][4 * (i % 4) + j]
  }

  /** x^n in the field. */
  function PowerOfX(n: nat): Byte {
    if n == 0 then 1 else Product(AES_POLY, PowerOfX(n - 1), 2)
  }

  /** What section 5.2 says of byte j of word i, in terms of earlier bytes alone. */
  predicate ScheduledAt(key: seq<Byte>, roundKeys: seq<Block>, i: nat, j: nat)
    requires ValidKey(key) && |roundKeys| == |key| / 4 + 7 && i < 4 * |roundKeys| && j < 4
  {
    var nk := |key| / 4;
    if i < nk then ByteOf(roundKeys, i, j) == key[4 * i + j]
    else
      var back := ByteOf(roundKeys, i - nk, j);
      if i % nk == 0 then
        var turned := SubByte(ByteOf(roundKeys, i - 1, (j + 1) % 4));
        ByteOf(roundKeys, i, j) == Xor(back, Xor(turned, if j == 0 then PowerOfX(i / nk - 1) else 0))
      else if nk == 8 && i % nk == 4 then
        ByteOf(roundKeys, i, j) == Xor(back, SubByte(ByteOf(roundKeys, i - 1, j)))
      else
        ByteOf(roundKeys, i, j) == Xor(back, ByteOf(roundKeys, i - 1, j))
  }

  lemma WordBytes(key: seq<Byte>, i: nat, j: nat)
    requires ValidKey(key) && i < 4 * (|key| / 4 + 7) && j < 4
    ensures ByteOf(RoundKeys(key), i, j) == KeyWord(key, i)[j]
  {
    hide KeyWord, RoundKeys;
    var r, q := i / 4, i % 4;
    RoundKeyAt(key, r);
    assert i == 4 * r + q;
    FourWords(KeyWord(key, 4 * r), KeyWord(key, 4 * r + 1), KeyWord(key, 4 * r + 2), KeyWord(key, 4 * r + 3), q, j);
    if q == 0 {
    } else if q == 1 {
    } else if q == 2 {
    } else {
    }
  }

  lemma RoundKeyAt(key: seq<Byte>, r: nat)
    requires ValidKey(key) && r < |key| / 4 + 7
    ensures RoundKeys(key)[r]
            == KeyWord(key, 4 * r) + KeyWord(key, 4 * r + 1) + KeyWord(key, 4 * r + 2) + KeyWord(key, 4 * r + 3)
  {
    hide KeyWord;
  }

  lemma FourWords(a: Word, b: Word, c: Word, d: Word, q: nat, j: nat)
    requires q < 4 && j < 4
    ensures (a + b + c + d)[4 * q + j] == [a, b, c, d][q][j]
  {
    if q == 0 {
    } else if q == 1 {
    } else if q == 2 {
    } else {
    }
  }

  lemma DoubledPower(n: nat, v: Byte, w: Byte)
    requires PowerOfX(n) == v && Twice(v) == w
    ensures PowerOfX(n + 1) == w
  {
    hide Product, Twice, Double;
    ProductStep(AES_POLY, v, 2);
    EvenProduct(v, 2);
    ProductUnit(AES_POLY, Twice(v));
  }

  lemma RoundConstantTwice()
    ensures Twice(1) == 2 && Twice(2) == 4 && Twice(4) == 8 && Twice(8) == 0x10 && Twice(0x10) == 0x20
    ensures Twice(0x20) == 0x40 && Twice(0x40) == 0x80 && Twice(0x80) == 0x1B && Twice(0x1B) == 0x36
  {
  }

  /** The round constants are the powers of x. */
  lemma RconPowers(n: nat)
    requires n < 10
    ensures RCON[n] == PowerOfX(n)
  {
    hide Twice, PowerOfX;
    RoundConstantTwice();
    PowerStart();
    DoubledPower(0, 1, 2);
    DoubledPower(1, 2, 4);
    DoubledPower(2, 4, 8);
    DoubledPower(3, 8, 0x10);
    DoubledPower(4, 0x10, 0x20);
    DoubledPower(5, 0x20, 0x40);
    DoubledPower(6, 0x40, 0x80);
    DoubledPower(7, 0x80, 0x1B);
    DoubledPower(8, 0x1B, 0x36);
  }

  lemma PowerStart()
    ensures PowerOfX(0) == 1
  {
  }

  /** The expanded key satisfies the recurrence of section 5.2 in every byte. */
  lemma ScheduleBytes(key: seq<Byte>, i: nat, j: nat)
    requires ValidKey(key) && i < 4 * (|key| / 4 + 7) && j < 4
    ensures ScheduledAt(key, RoundKeys(key), i, j)
  {
    hide Xor, SubByte, PowerOfX, KeyWord, RoundKeys, ByteOf;
    var nk := |key| / 4;
    WordBytes(key, i, j);
    if i < nk {
      KeyWordStart(key, i);
    } else {
      KeyWordNext(key, i);
      WordBytes(key, i - nk, j);
      WordBytes(key, i - 1, j);
      WordBytes(key, i - 1, (j + 1) % 4);
      if i % nk == 0 {
        RconInRange(nk, i);
        RconPowers(i / nk - 1);
      }
    }
  }

  // ---- any nk consecutive words determine the key --------------------------------------------

  lemma XorWordCancel(a: Word, b: Word, t: Word)
    requires XorWord(a, t) == XorWord(b, t)
    ensures a == b
  {
    hide Xor;
    forall k | 0 <= k < 4 ensures a[k] == b[k] {
      assert XorWord(a, t)[k] == Xor(a[k], t[k]) && XorWord(b, t)[k] == Xor(b[k], t[k]);
      XorComm(a[k], t[k]);
      XorComm(b[k], t[k]);
      CancelLeft(t[k], a[k], b[k]);
    }
  }

  lemma CancelLeft(t: nat, a: nat, b: nat)
    requires Xor(t, a) == Xor(t, b)
    ensures a == b
  {
    hide Xor;
    XorAssoc(t, t, a);
    XorAssoc(t, t, b);
    XorSelf(t);
    XorZero(a);
    XorZero(b);
  }

  /** Two keys of one length whose schedules agree on nk consecutive words are the same key. */
  lemma {:induction false} WindowDetermines(key: seq<Byte>, other: seq<Byte>, i: nat)
    requires ValidKey(key) && ValidKey(other) && |key| == |other| && i + |key| / 4 <= 4 * (|key| / 4 + 7)
    requires forall k :: i <= k < i + |key| / 4 ==> KeyWord(key, k) == KeyWord(other, k)
    ensures key == other
    decreases i
  {
    hide KeyWord, XorWord, ScheduleTemp;
    var nk := |key| / 4;
    if i == 0 {
      forall k | 0 <= k < |key| ensures key[k] == other[k] {
        KeyWordStart(key, k / 4);
        KeyWordStart(other, k / 4);
        assert KeyWord(key, k / 4)[k % 4] == key[k] && KeyWord(other, k / 4)[k % 4] == other[k];
      }
    } else {
      var last := i - 1 + nk;
      KeyWordNext(key, last);
      KeyWordNext(other, last);
      XorWordCancel(KeyWord(key, i - 1), KeyWord(other, i - 1), ScheduleTemp(nk, last, KeyWord(key, last - 1)));
      WindowDetermines(key, other, i - 1);
    }
  }

  // ---- the rounds --------------------------------------------------------------------------------

  /** Row r, column c of the state after SubBytes and ShiftRows. */
  function Moved(s: Block, r: nat, c: nat): Byte
    requires r < 4 && c < 4
  {
    SubByte(s[r + 4 * ((c + r) % 4)])
  }

  lemma MovedIs(s: Block, r: nat, c: nat)
    requires r < 4 && c < 4
    ensures ShiftRows(SubBytes(s))[r + 4 * c] == Moved(s, r, c)
  {
    hide SubByte, ShiftSource;
    SourceOf(r, c);
    TurnIsModular(c, r);
  }

  /** Every byte of a round: 2 and 3 times the two first moved bytes of its column, the other two, and the key. */
  lemma RoundByte(keys: seq<Block>, s: Block, k: nat, r: nat, c: nat)
    requires 1 <= k < |keys| && r < 4 && c < 4
    ensures var a := Rounds(keys, s, k - 1);
            var twice := Product(AES_POLY, Moved(a, r, c), 2);
            var thrice := Product(AES_POLY, Moved(a, (r + 1) % 4, c), 3);
            Rounds(keys, s, k)[r + 4 * c]
            == Xor(Xor(Xor(Xor(twice, thrice), Moved(a, (r + 2) % 4, c)), Moved(a, (r + 3) % 4, c)), keys[k][r + 4 * c])
  {
    hide Xor, SubByte, ShiftRows, SubBytes, Product, Moved;
    var a := Rounds(keys, s, k - 1);
    var moved := ShiftRows(SubBytes(a));
    MovedIs(a, 0, c);
    MovedIs(a, 1, c);
    MovedIs(a, 2, c);
    MovedIs(a, 3, c);
    MixedByte(moved, r, c);
    AddedByte(MixColumns(moved), keys[k], r + 4 * c);
  }

  lemma AddedByte(s: Block, key: Block, i: nat)
    requires i < 16
    ensures AddKey(s, key)[i] == Xor(s[i], key[i])
  {
  }

  lemma MixedByte(s: Block, r: nat, c: nat)
    requires r < 4 && c < 4
    ensures MixColumns(s)[r + 4 * c]
            == Xor(Xor(Xor(Product(AES_POLY, s[r + 4 * c], 2), Product(AES_POLY, s[(r + 1) % 4 + 4 * c], 3)),
                       s[(r + 2) % 4 + 4 * c]), s[(r + 3) % 4 + 4 * c])
  {
    hide Xor, Product, MixColumns;
    var t := MixColumns(s);
    ColumnMixed(s, c);
    ColumnCells(t, c);
    ColumnCells(s, c);
    if r == 0 {
    } else if r == 1 {
    } else if r == 2 {
    } else {
    }
  }

  lemma ColumnCells(s: Block, c: nat)
    requires c < 4
    ensures ColumnOf(s, c) == Column(s[0 + 4 * c], s[1 + 4 * c], s[2 + 4 * c], s[3 + 4 * c])
  {
  }

  /** The first key is added to the block itself. */
  lemma FirstBytes(keys: seq<Block>, s: Block, i: nat)
    requires |keys| >= 1 && i < 16
    ensures Rounds(keys, s, 0)[i] == Xor(s[i], keys[0][i])
  {
  }

  /** The last of the rounds leaves out the mixing. */
  lemma LastBytes(keys: seq<Block>, s: Block, r: nat, c: nat)
    requires |keys| >= 2 && r < 4 && c < 4
    ensures Encrypt(keys, s)[r + 4 * c]
            == Xor(Moved(Rounds(keys, s, |keys| - 2), r, c), keys[|keys| - 1][r + 4 * c])
  {
    hide Xor, SubByte, ShiftRows, SubBytes, Rounds, Moved;
    MovedIs(Rounds(keys, s, |keys| - 2), r, c);
    AddedByte(ShiftRows(SubBytes(Rounds(keys, s, |keys| - 2))), keys[|keys| - 1], r + 4 * c);
  }
}
