/** The codeword stream position by position: data nibbles, padding, interleaving. */
module QrStream {
  import opened Basics
  import opened Bits
  import opened QrTables
  import opened QrData
  import ReedSolomon
  import QrBlocks
  import QrCode

  // ---- half bytes ------------------------------------------------------------------

  /** Half byte k of a byte string, high half first. */
  function Nibble(d: seq<Byte>, k: nat): (r: nat)
    requires k < 2 * |d|
    ensures r < 16
  {
    if k % 2 == 0 then d[k / 2] / 16 else d[k / 2] % 16
  }

  lemma {:induction false} ValueConcat(a: BitString, b: BitString)
    ensures Value(a + b) == Pow2(|b|) * Value(a) + Value(b)
  {
    hide Value, Pow2;
    if b == [] {
      assert a + b == a;
      NoBits();
    } else {
      var n := |b| - 1;
      var c := b[..n];
      ValueConcat(a, c);
      assert (a + b)[..|a + b| - 1] == a + c;
      LastBit(a + b);
      LastBit(b);
      PowNext(n);
      MulDouble(Value(a), Pow2(n));
      assert Pow2(n + 1) * Value(a) == 2 * (Pow2(n) * Value(a));
    }
  }

  lemma NoBits()
    ensures Value([]) == 0 && Pow2(0) == 1
  {
  }

  lemma LastBit(b: BitString)
    requires b != []
    ensures Value(b) == 2 * Value(b[..|b| - 1]) + if b[|b| - 1] then 1 else 0
  {
  }

  /** A half byte is the number its four bits spell. */
  lemma NibbleBits(d: seq<Byte>, k: nat)
    requires k < 2 * |d|
    ensures Nibble(d, k) == Value(Unpack(d)[4 * k..4 * k + 4])
  {
    hide Value, Pow2, Unpack, Pack;
    var i := k / 2;
    var bits := Unpack(d);
    var high, low := bits[8 * i..8 * i + 4], bits[8 * i + 4..8 * i + 8];
    PackUnpack(d);
    ByteValue(d, i);
    assert bits[8 * i..8 * i + 8] == high + low;
    ValueConcat(high, low);
    FourBits(low);
    if k % 2 == 0 {
      assert 4 * k == 8 * i;
    } else {
      assert 4 * k == 8 * i + 4;
    }
  }

  lemma ByteValue(d: seq<Byte>, i: nat)
    requires i < |d| && Pack(Unpack(d)) == d
    ensures d[i] == Value(Unpack(d)[8 * i..8 * i + 8])
  {
    hide Value, Unpack;
    assert Pack(Unpack(d))[i] == PackAt(Unpack(d), i);
  }

  lemma FourBits(b: BitString)
    requires |b| == 4
    ensures Pow2(4) == 16 && Value(b) < 16
  {
    ValueBound(b);
  }

  // ---- the data bytes ------------------------------------------------------------------

  /** The header ends inside the data, with room for the terminator. */
  lemma DataPrefix(payload: seq<Byte>, version: Version, level: Level)
    requires Fits(version, level, |payload|)
    ensures var d := DataBytes(payload, version, level);
            var n := |Header(payload, version)|;
            n + 4 <= 8 * |d| && Unpack(d)[..n + 4] == Header(payload, version) + Off(4)
    ensures var d := DataBytes(payload, version, level);
            var full := (|Header(payload, version)| + 4) / 8;
            full <= |d| && forall k :: full <= k < |d| ==> d[k] == if (k - full) % 2 == 0 then 0xEC else 0x11
  {
    hide Unpack, Pack, DataCodewords, PadBytes, Header;
    var capacity := DataCodewords(version, level);
    var h := Header(payload, version);
    HeaderLength(payload, version);
    var t := Terminated(h, capacity);
    assert t == h + Off(4);
    var packed := Pack(t);
    var d := DataBytes(payload, version, level);
    UnpackPack(t);
    UnpackConcat(packed, PadBytes(capacity - |packed|));
    PadAt(capacity - |packed|);
    assert Unpack(d)[..|t|] == t;
  }

  lemma HeaderLength(payload: seq<Byte>, version: Version)
    ensures |Header(payload, version)| % 8 == 4
    ensures |Header(payload, version)| == 4 + CountBits(version) + 8 * |payload|
  {
  }

  lemma PadAt(n: nat)
    ensures forall i :: 0 <= i < n ==> PadBytes(n)[i] == if i % 2 == 0 then 0xEC else 0x11
  {
  }

  /** Half bytes taken by mode and count. */
  function Prelude(version: Version): nat {
    if version <= 9 then 3 else 5
  }

  lemma HeaderParts(payload: seq<Byte>, version: Version)
    ensures var h := Header(payload, version);
            var start := 4 * Prelude(version);
            && |h| == start + 8 * |payload|
            && h[..4] == BitsOf(4, 4)
            && h[4..start] == BitsOf(|payload|, start - 4)
            && h[start..] == Unpack(payload)
  {
    hide BitsOf, Unpack;
  }

  lemma ModeNibble(payload: seq<Byte>, version: Version, level: Level)
    requires Fits(version, level, |payload|)
    ensures var d := DataBytes(payload, version, level); |d| > 0 && Nibble(d, 0) == 4
  {
    hide Value, Unpack, BitsOf, Header, DataBytes, Nibble, Fits, CountBits, Prelude;
    var d := DataBytes(payload, version, level);
    DataPrefix(payload, version, level);
    HeaderParts(payload, version);
    NibbleBits(d, 0);
    var front := Header(payload, version) + Off(4);
    assert Unpack(d)[..|front|] == front;
    SliceOfPrefix(Unpack(d), |front|, 0);
    assert Unpack(d)[0..4] == front[0..4] == BitsOf(4, 4);
    ModeFits();
    ValueOfBits(4, 4);
  }

  lemma CountBitsAt(payload: seq<Byte>, version: Version, level: Level)
    requires Fits(version, level, |payload|)
    ensures var d := DataBytes(payload, version, level);
            var start := 4 * Prelude(version);
            |d| >= 3 && start <= 8 * |d| && Value(Unpack(d)[4..start]) == |payload|
  {
    hide Value, Unpack, BitsOf, Header, DataBytes, DataCodewords, Pow2;
    var d := DataBytes(payload, version, level);
    TableFacts(version, level);
    DataPrefix(payload, version, level);
    HeaderParts(payload, version);
    var start := 4 * Prelude(version);
    assert Unpack(d)[4..start] == (Header(payload, version) + Off(4))[4..start] == BitsOf(|payload|, start - 4);
    CountFits(version, level, |payload|);
    ValueOfBits(|payload|, start - 4);
  }

  lemma PairOfNibbles(d: seq<Byte>, k: nat)
    requires k + 1 < 2 * |d|
    ensures Value(Unpack(d)[4 * k..4 * k + 8]) == 16 * Nibble(d, k) + Nibble(d, k + 1)
  {
    hide Value, Unpack, Nibble;
    NibbleBits(d, k);
    NibbleBits(d, k + 1);
    TwoNibbles(Unpack(d), 4 * k);
  }

  lemma FourNibbles(d: seq<Byte>, k: nat)
    requires k + 3 < 2 * |d|
    ensures Value(Unpack(d)[4 * k..4 * k + 16])
            == 4096 * Nibble(d, k) + 256 * Nibble(d, k + 1) + 16 * Nibble(d, k + 2) + Nibble(d, k + 3)
  {
    hide Value, Unpack, Nibble, Pow2;
    var bits := Unpack(d);
    PairOfNibbles(d, k);
    PairOfNibbles(d, k + 2);
    assert bits[4 * k..4 * k + 16] == bits[4 * k..4 * k + 8] + bits[4 * k + 8..4 * k + 16];
    ValueConcat(bits[4 * k..4 * k + 8], bits[4 * k + 8..4 * k + 16]);
    Pow2Values();
  }

  /** The half bytes of the count, after the mode: two up to version 9, four from version 10 on. */
  lemma CountNibbles(payload: seq<Byte>, version: Version, level: Level)
    requires Fits(version, level, |payload|)
    ensures var d := DataBytes(payload, version, level);
            && |d| >= 3
            && (version <= 9 ==> 16 * Nibble(d, 1) + Nibble(d, 2) == |payload|)
            && (version >= 10 ==>
                  4096 * Nibble(d, 1) + 256 * Nibble(d, 2) + 16 * Nibble(d, 3) + Nibble(d, 4) == |payload|)
  {
    hide Value, Unpack, DataBytes, Nibble, Fits;
    CountBitsAt(payload, version, level);
    var d := DataBytes(payload, version, level);
    if version <= 9 {
      PairOfNibbles(d, 1);
    } else {
      FourNibbles(d, 1);
    }
  }

  lemma TwoNibbles(bits: BitString, i: nat)
    requires i + 8 <= |bits|
    ensures Value(bits[i..i + 8]) == 16 * Value(bits[i..i + 4]) + Value(bits[i + 4..i + 8])
  {
    hide Value, Pow2;
    assert bits[i..i + 8] == bits[i..i + 4] + bits[i + 4..i + 8];
    ValueConcat(bits[i..i + 4], bits[i + 4..i + 8]);
    FourBits(bits[i..i + 4]);
  }

  /** The payload follows half a byte out of step, then a zero half byte ends it. */
  lemma PayloadNibbles(payload: seq<Byte>, version: Version, level: Level, k: nat)
    requires Fits(version, level, |payload|) && k <= 2 * |payload|
    ensures var d := DataBytes(payload, version, level);
            var p := if version <= 9 then 3 else 5;
            p + k < 2 * |d| && Nibble(d, p + k) == if k < 2 * |payload| then Nibble(payload, k) else 0
  {
    hide Value, Unpack, BitsOf, Header, DataBytes, Nibble, DataCodewords, Pow2;
    var d := DataBytes(payload, version, level);
    DataPrefix(payload, version, level);
    HeaderParts(payload, version);
    var p := Prelude(version);
    var h, bits := Header(payload, version), Unpack(d);
    var s := 4 * (p + k);
    NibbleBits(d, p + k);
    var front := h + Off(4);
    assert bits[..|front|] == front;
    SliceOfPrefix(bits, |front|, s);
    if k < 2 * |payload| {
      NibbleBits(payload, k);
      SliceOfFirst(h, Off(4), 4 * p, 4 * k);
    } else {
      SliceOfLast(h, Off(4));
      ZeroBits(4);
    }
  }

  lemma SliceOfPrefix(bits: BitString, n: nat, i: nat)
    requires i + 4 <= n <= |bits|
    ensures bits[..n][i..i + 4] == bits[i..i + 4]
  {
  }

  lemma SliceOfFirst(a: BitString, b: BitString, start: nat, i: nat)
    requires start + i + 4 <= |a|
    ensures (a + b)[start + i..start + i + 4] == a[start..][i..i + 4]
  {
  }

  lemma SliceOfLast(a: BitString, b: BitString)
    requires |b| == 4
    ensures (a + b)[|a|..|a| + 4] == b
  {
  }

  lemma {:induction false} ZeroBits(n: nat)
    ensures Value(Off(n)) == 0
  {
    if n > 0 {
      ZeroBits(n - 1);
      assert Off(n)[..n - 1] == Off(n - 1);
    }
  }

  /** All other data bytes are 0xEC and 0x11 in turn. */
  lemma PaddingBytes(payload: seq<Byte>, version: Version, level: Level, k: nat)
    requires Fits(version, level, |payload|)
    ensures var d := DataBytes(payload, version, level);
            var full := |payload| + (if version <= 9 then 2 else 3);
            full <= |d| && (full <= k < |d| ==> d[k] == if (k - full) % 2 == 0 then 0xEC else 0x11)
  {
    hide Unpack, Header, DataBytes, DataCodewords;
    DataPrefix(payload, version, level);
    HeaderLength(payload, version);
  }

  // ---- interleaving ---------------------------------------------------------------------------

  /** Blocks before j hold this many data bytes: `data / blocks` each, the last `data % blocks` of all blocks one more. */
  function Start(blocks: nat, data: nat, j: nat): nat
    requires blocks > 0
  {
    var longer := j - (blocks - data % blocks);
    j * (data / blocks) + (if longer > 0 then longer else 0)
  }

  lemma LayoutIs(version: Version, level: Level)
    ensures var l := QrBlocks.LayoutOf(version, level);
            var n := DataCodewords(version, level);
            && n >= 0 && l.blocks == NumBlocks(level, version) > 0 && l.eccLen == EccPerBlock(level, version)
            && QrBlocks.Valid(l) && QrBlocks.DataLength(l) == n
            && l.shortLen == n / l.blocks && l.numShort == l.blocks - n % l.blocks
  {
    hide TotalCodewords, EccPerBlock, NumBlocks;
    TableFacts(version, level);
  }

  /** The codewords of the data bytes. */
  function Stream(version: Version, level: Level, data: seq<Byte>): (cw: seq<Byte>)
    requires |data| == DataCodewords(version, level)
    ensures |cw| == TotalCodewords(version)
  {
    hide TotalCodewords, DataCodewords, QrBlocks.LayoutOf, QrBlocks.Codewords;
    QrBlocks.LayoutFacts(version, level);
    QrBlocks.Codewords(QrBlocks.LayoutOf(version, level), data)
  }

  /** Row by row: byte i of every block in turn. */
  lemma InterleavedAt(version: Version, level: Level, data: seq<Byte>, i: nat, j: nat)
    requires |data| == DataCodewords(version, level)
    requires j < NumBlocks(level, version) && i < |data| / NumBlocks(level, version)
    ensures var blocks := NumBlocks(level, version);
            var cw := Stream(version, level, data);
            && 0 <= blocks * i + j < |cw| && Start(blocks, |data|, j) + i < |data|
            && cw[blocks * i + j] == data[Start(blocks, |data|, j) + i]
  {
    hide NumBlocks, DataCodewords, QrBlocks.LayoutOf, QrBlocks.DataRows, QrBlocks.EccRows, QrBlocks.Offset;
    LayoutIs(version, level);
    var l := QrBlocks.LayoutOf(version, level);
    QrBlocks.OffsetForm(l, j);
    QrBlocks.OffsetInside(l, j);
    QrBlocks.DataRowsAt(l, data, l.shortLen + 1, i, j);
  }

  /** The last row holds the extra byte of the longer blocks. */
  lemma InterleavedLast(version: Version, level: Level, data: seq<Byte>, j: nat)
    requires |data| == DataCodewords(version, level)
    requires NumBlocks(level, version) > 0
    requires NumBlocks(level, version) - |data| % NumBlocks(level, version) <= j < NumBlocks(level, version)
    ensures var blocks := NumBlocks(level, version);
            var cw := Stream(version, level, data);
            var at := blocks * (|data| / blocks) + j - (blocks - |data| % blocks);
            && 0 <= at < |cw| && Start(blocks, |data|, j) + |data| / blocks < |data|
            && cw[at] == data[Start(blocks, |data|, j) + |data| / blocks]
  {
    hide NumBlocks, DataCodewords, QrBlocks.LayoutOf, QrBlocks.DataRows, QrBlocks.EccRows, QrBlocks.Offset;
    LayoutIs(version, level);
    var l := QrBlocks.LayoutOf(version, level);
    QrBlocks.OffsetForm(l, j);
    QrBlocks.OffsetInside(l, j);
    QrBlocks.DataRowsAt(l, data, l.shortLen + 1, l.shortLen, j);
  }

  /** Error correction bytes follow the data, interleaved alike; each block's are its own remainder. */
  lemma InterleavedEcc(version: Version, level: Level, data: seq<Byte>, i: nat, j: nat)
    requires |data| == DataCodewords(version, level)
    requires j < NumBlocks(level, version) && i < EccPerBlock(level, version)
    ensures var blocks, ecc := NumBlocks(level, version), EccPerBlock(level, version);
            var cw := Stream(version, level, data);
            var from, to := Start(blocks, |data|, j), Start(blocks, |data|, j + 1);
            && 0 <= |data| + blocks * i + j < |cw| && from <= to <= |data|
            && |ReedSolomon.Remainder(data[from..to], ReedSolomon.Generator(ecc))| == ecc
            && cw[|data| + blocks * i + j] == ReedSolomon.Remainder(data[from..to], ReedSolomon.Generator(ecc))[i]
  {
    hide NumBlocks, EccPerBlock, DataCodewords, QrBlocks.LayoutOf, QrBlocks.DataRows, QrBlocks.EccRows,
         ReedSolomon.Remainder, ReedSolomon.Generator;
    LayoutIs(version, level);
    var l := QrBlocks.LayoutOf(version, level);
    QrBlocks.OffsetForm(l, j);
    QrBlocks.OffsetForm(l, j + 1);
    QrBlocks.OffsetInside(l, j);
    QrBlocks.EccRowsAt(l, data, l.eccLen, i, j);
    assert |QrBlocks.Ecc(l, data, j)| == l.eccLen;
  }

  // ---- what fits --------------------------------------------------------------------------------

  /** A payload fits when it leaves two data codewords for mode, count and terminator, three from version 10 on. */
  lemma FitsIff(version: Version, level: Level, n: nat)
    ensures Fits(version, level, n) <==> n + (if version <= 9 then 2 else 3) <= DataCodewords(version, level)
  {
    hide DataCodewords;
  }

  /** The codewords of a payload are the stream of its data bytes. */
  lemma StreamOfPayload(payload: seq<Byte>, version: Version, level: Level, k: nat)
    requires Fits(version, level, |payload|) && k < TotalCodewords(version)
    ensures QrCode.CodewordsOf(payload, version, level)[k] == Stream(version, level, DataBytes(payload, version, level))[k]
  {
    hide DataBytes, TotalCodewords, DataCodewords, QrBlocks.LayoutOf, QrBlocks.Codewords;
    QrBlocks.LayoutFacts(version, level);
  }
}
