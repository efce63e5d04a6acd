/** Splitting data into blocks, error correction and interleaving, section 7.6 of ISO/IEC 18004:2015. */
module QrBlocks {
  import opened Basics
  import opened Bits
  import opened QrField
  import opened ReedSolomon
  import opened QrTables

  /** `blocks` blocks: the first `numShort` hold `shortLen` data bytes, the others one more. */
  datatype Layout = Layout(blocks: nat, shortLen: nat, numShort: nat, eccLen: nat)

  predicate Valid(l: Layout) {
    l.blocks > 0 && 0 < l.numShort <= l.blocks && 0 < l.eccLen <= 512
  }

  function DataLength(l: Layout): int {
    l.blocks * l.shortLen + l.blocks - l.numShort
  }

  function MakeLayout(total: nat, ecc: nat, blocks: nat): (l: Layout)
    requires blocks > 0 && 0 < ecc <= 512 && ecc * blocks <= total
    ensures Valid(l) && l.blocks == blocks && l.eccLen == ecc
    ensures DataLength(l) == total - ecc * blocks
  {
    var dataLen := total - ecc * blocks;
    Layout(blocks, dataLen / blocks, blocks - dataLen % blocks, ecc)
  }

  function LayoutOf(version: Version, level: Level): (l: Layout)
  {
    TableFacts(version, level);
    MakeLayout(TotalCodewords(version), EccPerBlock(level, version), NumBlocks(level, version))
  }

  lemma LayoutFacts(version: Version, level: Level)
    ensures Valid(LayoutOf(version, level))
    ensures DataLength(LayoutOf(version, level)) == DataCodewords(version, level)
    ensures DataLength(LayoutOf(version, level))
          + LayoutOf(version, level).blocks * LayoutOf(version, level).eccLen == TotalCodewords(version)
  {
    hide TotalCodewords, EccPerBlock, NumBlocks;
    TableFacts(version, level);
  }

  function BlockLen(l: Layout, j: nat): nat {
    l.shortLen + (if j < l.numShort then 0 else 1)
  }

  /** Where block j starts in the data. */
  function Offset(l: Layout, j: nat): nat {
    if j == 0 then 0 else Offset(l, j - 1) + BlockLen(l, j - 1)
  }

  lemma {:induction false} OffsetForm(l: Layout, j: nat)
    ensures Offset(l, j) == j * l.shortLen + (if j <= l.numShort then 0 else j - l.numShort)
  {
    if j > 0 {
      OffsetForm(l, j - 1);
      assert j * l.shortLen == (j - 1) * l.shortLen + l.shortLen;
    }
  }

  lemma {:induction false} OffsetMono(l: Layout, j: nat, k: nat)
    requires j <= k
    ensures Offset(l, j) <= Offset(l, k)
  {
    if j < k {
      OffsetMono(l, j, k - 1);
    }
  }

  lemma OffsetEnd(l: Layout)
    requires Valid(l)
    ensures Offset(l, l.blocks) == DataLength(l)
  {
    OffsetForm(l, l.blocks);
  }

  lemma OffsetInside(l: Layout, j: nat)
    requires Valid(l) && j < l.blocks
    ensures Offset(l, j) + BlockLen(l, j) <= DataLength(l)
  {
    OffsetMono(l, j + 1, l.blocks);
    OffsetEnd(l);
  }

  function Block(l: Layout, data: Poly, j: nat): (b: Poly)
    requires Valid(l) && |data| == DataLength(l) && j < l.blocks
    ensures |b| == BlockLen(l, j)
  {
    OffsetInside(l, j);
    data[Offset(l, j)..Offset(l, j) + BlockLen(l, j)]
  }

  function Ecc(l: Layout, data: Poly, j: nat): (b: Poly)
    requires Valid(l) && |data| == DataLength(l) && j < l.blocks
    ensures |b| == l.eccLen
  {
    Remainder(Block(l, data, j), Generator(l.eccLen))
  }

  // ---- the interleaved stream -------------------------------------------------

  /** Byte i of every block that has one. */
  function DataRow(l: Layout, data: Poly, i: nat): (r: Poly)
    requires Valid(l) && |data| == DataLength(l) && i <= l.shortLen
    ensures |r| == if i < l.shortLen then l.blocks else l.blocks - l.numShort
  {
    if i < l.shortLen then
      seq(l.blocks, j requires 0 <= j < l.blocks => Block(l, data, j)[i])
    else
      seq(l.blocks - l.numShort, j requires 0 <= j < l.blocks - l.numShort =>
        Block(l, data, l.numShort + j)[i])
  }

  function DataRows(l: Layout, data: Poly, n: nat): (r: Poly)
    requires Valid(l) && |data| == DataLength(l) && n <= l.shortLen + 1
    ensures |r| == if n <= l.shortLen then l.blocks * n else DataLength(l)
  {
    if n == 0 then [] else DataRows(l, data, n - 1) + DataRow(l, data, n - 1)
  }

  function EccRow(l: Layout, data: Poly, i: nat): (r: Poly)
    requires Valid(l) && |data| == DataLength(l) && i < l.eccLen
    ensures |r| == l.blocks
  {
    seq(l.blocks, j requires 0 <= j < l.blocks => Ecc(l, data, j)[i])
  }

  function EccRows(l: Layout, data: Poly, n: nat): (r: Poly)
    requires Valid(l) && |data| == DataLength(l) && n <= l.eccLen
    ensures |r| == l.blocks * n
  {
    if n == 0 then [] else EccRows(l, data, n - 1) + EccRow(l, data, n - 1)
  }

  function Codewords(l: Layout, data: Poly): (r: Poly)
    requires Valid(l) && |data| == DataLength(l)
    ensures |r| == DataLength(l) + l.blocks * l.eccLen
  {
    DataRows(l, data, l.shortLen + 1) + EccRows(l, data, l.eccLen)
  }

  // ---- the reader ----------------------------------------------------------------

  /** Where byte i of data block j travels to. */
  function Position(l: Layout, i: nat, j: nat): int {
    if i < l.shortLen then l.blocks * i + j else l.blocks * l.shortLen + j - l.numShort
  }

  lemma PositionInside(l: Layout, i: nat, j: nat)
    requires Valid(l) && j < l.blocks && i < BlockLen(l, j)
    ensures 0 <= Position(l, i, j) < DataLength(l)
  {
    if i < l.shortLen {
      MulGrows(l.blocks, i + 1, l.shortLen);
    }
  }

  function ReadBlock(l: Layout, cw: Poly, j: nat): (b: Poly)
    requires Valid(l) && |cw| == DataLength(l) + l.blocks * l.eccLen && j < l.blocks
    ensures |b| == BlockLen(l, j)
  {
    seq(BlockLen(l, j), i requires 0 <= i < BlockLen(l, j) =>
      (PositionInside(l, i, j); cw[Position(l, i, j)]))
  }

  function ReadEcc(l: Layout, cw: Poly, j: nat): (b: Poly)
    requires Valid(l) && |cw| == DataLength(l) + l.blocks * l.eccLen && j < l.blocks
    ensures |b| == l.eccLen
  {
    seq(l.eccLen, i requires 0 <= i < l.eccLen =>
      (EccPositionInside(l, i, j); cw[DataLength(l) + l.blocks * i + j]))
  }

  lemma EccPositionInside(l: Layout, i: nat, j: nat)
    requires Valid(l) && j < l.blocks && i < l.eccLen
    ensures 0 <= l.blocks * i && l.blocks * i + j < l.blocks * l.eccLen && 0 <= DataLength(l)
  {
    MulGrows(l.blocks, i + 1, l.eccLen);
    MulGrows(l.blocks, 0, l.shortLen);
  }

  function ReadBlocks(l: Layout, cw: Poly, n: nat): (d: Poly)
    requires Valid(l) && |cw| == DataLength(l) + l.blocks * l.eccLen && n <= l.blocks
  {
    if n == 0 then [] else ReadBlocks(l, cw, n - 1) + ReadBlock(l, cw, n - 1)
  }

  /** The de-interleaved data. */
  function ReadData(l: Layout, cw: Poly): Poly
    requires Valid(l) && |cw| == DataLength(l) + l.blocks * l.eccLen
  {
    ReadBlocks(l, cw, l.blocks)
  }

  // ---- reading undoes interleaving --------------------------------------------------

  lemma DataRowAt(l: Layout, data: Poly, i: nat, j: nat)
    requires Valid(l) && |data| == DataLength(l) && i <= l.shortLen
    requires j < l.blocks && i < BlockLen(l, j)
    ensures var c := if i < l.shortLen then j else j - l.numShort;
            0 <= c < |DataRow(l, data, i)| && DataRow(l, data, i)[c] == Block(l, data, j)[i]
  {
    hide Block;
  }

  lemma DataRowsNext(l: Layout, data: Poly, n: nat)
    requires Valid(l) && |data| == DataLength(l) && 0 < n <= l.shortLen + 1
    ensures DataRows(l, data, n) == DataRows(l, data, n - 1) + DataRow(l, data, n - 1)
    ensures |DataRows(l, data, n - 1)| == l.blocks * (n - 1)
  {
    hide DataRow;
  }

  lemma {:induction false} DataRowsAt(l: Layout, data: Poly, n: nat, i: nat, j: nat)
    requires Valid(l) && |data| == DataLength(l) && n <= l.shortLen + 1
    requires j < l.blocks && i < BlockLen(l, j) && i < n
    ensures 0 <= Position(l, i, j) < |DataRows(l, data, n)|
    ensures DataRows(l, data, n)[Position(l, i, j)] == Block(l, data, j)[i]
  {
    hide Block, DataRow, DataRows;
    DataRowsNext(l, data, n);
    PositionInside(l, i, j);
    if i == n - 1 {
      DataRowAt(l, data, i, j);
    } else {
      DataRowsAt(l, data, n - 1, i, j);
    }
  }

  lemma {:induction false} EccRowsAt(l: Layout, data: Poly, n: nat, i: nat, j: nat)
    requires Valid(l) && |data| == DataLength(l) && n <= l.eccLen
    requires j < l.blocks && i < n
    ensures 0 <= l.blocks * i + j < |EccRows(l, data, n)|
    ensures EccRows(l, data, n)[l.blocks * i + j] == Ecc(l, data, j)[i]
  {
    hide Ecc;
    if i == n - 1 {
      assert EccRows(l, data, n) == EccRows(l, data, i) + EccRow(l, data, i);
    } else {
      EccRowsAt(l, data, n - 1, i, j);
    }
  }

  lemma ReadBlockOfCodewords(l: Layout, data: Poly, j: nat)
    requires Valid(l) && |data| == DataLength(l) && j < l.blocks
    ensures ReadBlock(l, Codewords(l, data), j) == Block(l, data, j)
    ensures ReadEcc(l, Codewords(l, data), j) == Ecc(l, data, j)
  {
    hide Block, Ecc, Position, DataRows, EccRows;
    var cw := Codewords(l, data);
    forall i | 0 <= i < BlockLen(l, j) ensures ReadBlock(l, cw, j)[i] == Block(l, data, j)[i] {
      DataRowsAt(l, data, l.shortLen + 1, i, j);
    }
    forall i | 0 <= i < l.eccLen ensures ReadEcc(l, cw, j)[i] == Ecc(l, data, j)[i] {
      EccRowsAt(l, data, l.eccLen, i, j);
    }
  }

  lemma {:induction false} ReadBlocksOfCodewords(l: Layout, data: Poly, n: nat)
    requires Valid(l) && |data| == DataLength(l) && n <= l.blocks
    ensures Offset(l, n) <= |data|
    ensures ReadBlocks(l, Codewords(l, data), n) == data[..Offset(l, n)]
  {
    hide ReadBlock, Codewords, BlockLen;
    OffsetMono(l, n, l.blocks);
    OffsetEnd(l);
    if n > 0 {
      ReadBlocksOfCodewords(l, data, n - 1);
      ReadBlockOfCodewords(l, data, n - 1);
    }
  }

  /** De-interleaving returns the data, and every block read is a Reed-Solomon codeword. */
  lemma ReadInterleaved(l: Layout, data: Poly)
    requires Valid(l) && |data| == DataLength(l)
    ensures ReadData(l, Codewords(l, data)) == data
  {
    hide Codewords;
    ReadBlocksOfCodewords(l, data, l.blocks);
    OffsetEnd(l);
  }

  lemma BlockIsCodeword(l: Layout, data: Poly, j: nat, k: nat)
    requires Valid(l) && |data| == DataLength(l) && j < l.blocks && k < l.eccLen
    ensures var cw := Codewords(l, data);
            Eval(ReadBlock(l, cw, j) + ReadEcc(l, cw, j), Alpha(k)) == 0
  {
    hide ReadBlock, ReadEcc, Codewords, Eval, Alpha;
    ReadBlockOfCodewords(l, data, j);
    CodewordVanishes(Block(l, data, j), l.eccLen, k);
  }

  // ---- the program ----------------------------------------------------------------------

  method SplitBlocks(t: Tables, l: Layout, data: Poly) returns (blocks: seq<Poly>, eccs: seq<Poly>)
    requires Correct(t) && Valid(l) && |data| == DataLength(l)
    ensures |blocks| == |eccs| == l.blocks
    ensures forall j :: 0 <= j < l.blocks ==> blocks[j] == Block(l, data, j)
    ensures forall j :: 0 <= j < l.blocks ==> eccs[j] == Ecc(l, data, j)
  {
    hide Correct, Remainder, Generator;
    var generator := RsGenerator(t, l.eccLen);
    blocks, eccs := [], [];
    var pos := 0;
    for i := 0 to l.blocks
      invariant |blocks| == |eccs| == i && pos == Offset(l, i)
      invariant forall j :: 0 <= j < i ==> blocks[j] == Block(l, data, j)
      invariant forall j :: 0 <= j < i ==> eccs[j] == Ecc(l, data, j)
    {
      var take := l.shortLen + (if i < l.numShort then 0 else 1);
      OffsetInside(l, i);
      var block := data[pos..pos + take];
      pos := pos + take;
      blocks := blocks + [block];
      var ecc := RsRemainder(t, block, generator);
      eccs := eccs + [ecc];
    }
    OffsetEnd(l);
    assert pos == DataLength(l);
  }

  method AppendDataRow(l: Layout, data: Poly, blocks: seq<Poly>, i: nat, start: Poly) returns (result: Poly)
    requires Valid(l) && |data| == DataLength(l) && i <= l.shortLen && |blocks| == l.blocks
    requires forall j :: 0 <= j < l.blocks ==> blocks[j] == Block(l, data, j)
    ensures result == start + DataRow(l, data, i)
  {
    hide Block;
    result := start;
    ghost var row := DataRow(l, data, i);
    for j := 0 to l.blocks
      invariant i < l.shortLen ==> result == start + row[..j]
      invariant i == l.shortLen ==> result == start + row[..if j < l.numShort then 0 else j - l.numShort]
    {
      if i < l.shortLen || j >= l.numShort {
        if i < |blocks[j]| {
          result := result + [blocks[j][i]];
        }
      }
    }
    assert row[..|row|] == row;
  }

  method AppendEccRow(l: Layout, data: Poly, eccs: seq<Poly>, i: nat, start: Poly) returns (result: Poly)
    requires Valid(l) && |data| == DataLength(l) && i < l.eccLen && |eccs| == l.blocks
    requires forall j :: 0 <= j < l.blocks ==> eccs[j] == Ecc(l, data, j)
    ensures result == start + EccRow(l, data, i)
  {
    hide Ecc;
    result := start;
    ghost var row := EccRow(l, data, i);
    for j := 0 to |eccs|
      invariant result == start + row[..j]
    {
      result := result + [eccs[j][i]];
    }
    assert row[..|row|] == row;
  }

  method AddEccAndInterleave(t: Tables, l: Layout, data: Poly) returns (result: Poly)
    requires Correct(t) && Valid(l) && |data| == DataLength(l)
    ensures result == Codewords(l, data)
  {
    hide Correct, Block, Ecc, DataRow, EccRow;
    var blocks, eccs := SplitBlocks(t, l, data);
    result := [];
    for i := 0 to l.shortLen + 1
      invariant result == DataRows(l, data, i)
    {
      result := AppendDataRow(l, data, blocks, i, result);
    }
    ghost var front := result;
    for i := 0 to l.eccLen
      invariant result == front + EccRows(l, data, i)
    {
      result := AppendEccRow(l, data, eccs, i, result);
      assert front + EccRows(l, data, i) + EccRow(l, data, i) == front + EccRows(l, data, i + 1);
    }
  }
}
