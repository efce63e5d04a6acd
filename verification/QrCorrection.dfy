/** Reading damaged symbols: what the error correction bytes are for. */
module QrCorrection {
  import opened Basics
  import opened Bits
  import opened Outcome
  import opened QrField
  import opened ReedSolomon
  import opened RsDistance
  import opened QrTables
  import opened QrGeometry
  import opened QrMatrix
  import opened QrBlocks
  import QrData
  import opened QrCode

  // ---- one block --------------------------------------------------------------------------

  /** A codeword within half the distance. */
  ghost predicate Near(received: Poly, a: Poly, d: nat) {
    |a| == |received| && IsCodeword(a, d) && 2 * Differences(received, a) <= d
  }

  /** The codeword near the received word, if there is one. */
  ghost function Corrected(received: Poly, d: nat): (a: Poly)
    ensures |a| == |received|
    ensures (exists b :: Near(received, b, d)) ==> Near(received, a, d)
  {
    if exists b :: Near(received, b, d) then var b :| Near(received, b, d); b else received
  }

  lemma CorrectedIs(received: Poly, a: Poly, d: nat)
    requires Near(received, a, d)
    ensures Corrected(received, d) == a
  {
    hide IsCodeword, Differences, Corrected;
    UniqueCorrection(received, Corrected(received, d), a, d);
  }

  // ---- all blocks ---------------------------------------------------------------------------

  /** Block j with its error correction, as read. */
  function Word(l: Layout, cw: Poly, j: nat): (w: Poly)
    requires Valid(l) && |cw| == DataLength(l) + l.blocks * l.eccLen && j < l.blocks
    ensures |w| == BlockLen(l, j) + l.eccLen
  {
    ReadBlock(l, cw, j) + ReadEcc(l, cw, j)
  }

  /** In every block at most half as many bytes differ as there are error correction bytes. */
  ghost predicate Repairable(l: Layout, received: Poly, cw: Poly)
    requires Valid(l) && |cw| == |received| == DataLength(l) + l.blocks * l.eccLen
  {
    forall j :: 0 <= j < l.blocks ==> 2 * Differences(Word(l, received, j), Word(l, cw, j)) <= l.eccLen
  }

  /** The data of the first n blocks after correction. */
  ghost function CorrectedBlocks(l: Layout, cw: Poly, n: nat): Poly
    requires Valid(l) && |cw| == DataLength(l) + l.blocks * l.eccLen && n <= l.blocks
  {
    if n == 0 then []
    else CorrectedBlocks(l, cw, n - 1) + Corrected(Word(l, cw, n - 1), l.eccLen)[..BlockLen(l, n - 1)]
  }

  lemma WordIsCodeword(l: Layout, data: Poly, j: nat)
    requires Valid(l) && |data| == DataLength(l) && j < l.blocks && BlockLen(l, j) + l.eccLen <= 255
    ensures IsCodeword(Word(l, Codewords(l, data), j), l.eccLen)
  {
    hide ReadBlock, ReadEcc, Codewords, Eval, Alpha;
    forall k | 0 <= k < l.eccLen ensures Eval(Word(l, Codewords(l, data), j), Alpha(k)) == 0 {
      BlockIsCodeword(l, data, j, k);
    }
  }

  lemma {:induction false} CorrectionRestores(l: Layout, data: Poly, received: Poly, n: nat)
    requires Valid(l) && |data| == DataLength(l) && n <= l.blocks && l.shortLen + 1 + l.eccLen <= 255
    requires |received| == DataLength(l) + l.blocks * l.eccLen && Repairable(l, received, Codewords(l, data))
    ensures CorrectedBlocks(l, received, n) == ReadBlocks(l, Codewords(l, data), n)
  {
    hide ReadBlock, ReadEcc, Codewords, Differences, Corrected, IsCodeword;
    if n > 0 {
      CorrectionRestores(l, data, received, n - 1);
      var j, cw := n - 1, Codewords(l, data);
      WordIsCodeword(l, data, j);
      CorrectedIs(Word(l, received, j), Word(l, cw, j), l.eccLen);
      assert Word(l, cw, j)[..BlockLen(l, j)] == ReadBlock(l, cw, j);
    }
  }

  /** Every version and level has blocks short enough for the code. */
  lemma BlocksFit(version: Version, level: Level)
    ensures LayoutOf(version, level).shortLen + 1 + LayoutOf(version, level).eccLen <= 255
  {
    hide TotalCodewords, EccPerBlock, NumBlocks;
    TableFacts(version, level);
    BlockSizes(version, level);
    ShortBlocks(DataCodewords(version, level), NumBlocks(level, version));
  }

  lemma ShortBlocks(data: nat, blocks: nat)
    requires blocks > 0 && data <= 200 * blocks
    ensures data / blocks <= 200
  {
    var q := data / blocks;
    assert data == blocks * q + data % blocks;
    if 201 <= q {
      MulGrows(blocks, 201, q);
    }
  }

  // ---- the whole symbol --------------------------------------------------------------------------

  /** Like `Decode`, with every block corrected before its data is used. */
  ghost function RobustDecode(m: Grid): Option<Bytes> {
    hide TotalCodewords, DataCodewords, LayoutOf, DataLength, Xor, ReadFormat, Square;
    if !SymbolShape(m) then None
    else
      var version: Version := (|m| - 17) / 4;
      var data := Xor(ReadFormat(m), FORMAT_MASK) / 1024;
      if data >= 16 then None
      else
        var level := if data / 8 == 1 then Low else Medium;
        var l := LayoutOf(version, level);
        LayoutFacts(version, level);
        QrData.ReadPayload(CorrectedBlocks(l, ReadCodewords(m, version, data % 8), l.blocks), version)
  }

  /** A symbol of that size and format word whose blocks have few enough wrong bytes. */
  ghost predicate Damaged(m: Grid, version: Version, level: Level, mask: int, payload: Bytes)
    requires Fits(version, level, |payload|) && 0 <= mask < 8
  {
    LayoutFacts(version, level);
    && SymbolShape(m) && |m| == Size(version) && ReadFormat(m) == FormatBits(level, mask)
    && Repairable(LayoutOf(version, level), ReadCodewords(m, version, mask), CodewordsOf(payload, version, level))
  }

  /** Any damage of at most half the error correction bytes in every block leaves the payload readable. */
  lemma DamagedSymbolReads(m: Grid, version: Version, level: Level, mask: int, payload: Bytes)
    requires Fits(version, level, |payload|) && 0 <= mask < 8 && Damaged(m, version, level, mask, payload)
    ensures RobustDecode(m) == Some(payload)
  {
    hide TotalCodewords, DataCodewords, FormatBits, Xor, ReadFormat, ReadCodewords, Fits, Codewords, QrData.ReadPayload,
         QrData.DataBytes, LayoutOf, QrBlocks.Valid, DataLength, FORMAT_MASK, Repairable, CorrectedBlocks, ReadBlocks;
    var l, data := LayoutOf(version, level), QrData.DataBytes(payload, version, level);
    FormatWordFits(level, mask);
    LayoutFacts(version, level);
    BlocksFit(version, level);
    CorrectionRestores(l, data, ReadCodewords(m, version, mask), l.blocks);
    ReadInterleaved(l, data);
    QrData.ReadEncoded(payload, version, level);
  }

  /** In particular every symbol the encoder draws, untouched. */
  lemma DrawnSymbolReads(m: Grid, version: Version, level: Level, mask: int, payload: Bytes)
    requires Fits(version, level, |payload|) && 0 <= mask < 8
    requires IsSymbol(m, version, level, mask, CodewordsOf(payload, version, level))
    ensures Damaged(m, version, level, mask, payload) && RobustDecode(m) == Some(payload)
  {
    hide TotalCodewords, DataCodewords, FormatBits, ReadFormat, ReadCodewords, Fits, Codewords, QrData.DataBytes, LayoutOf,
         RobustDecode, IsSymbol, Differences, ReadBlock, ReadEcc;
    var cw := CodewordsOf(payload, version, level);
    SymbolHasShape(m, version, level, mask, cw);
    ReadFormatOfSymbol(m, version, level, mask, cw);
    ReadCodewordsOfSymbol(m, version, level, mask, cw);
    LayoutFacts(version, level);
    forall j | 0 <= j < LayoutOf(version, level).blocks
      ensures 2 * Differences(Word(LayoutOf(version, level), cw, j), Word(LayoutOf(version, level), cw, j))
              <= LayoutOf(version, level).eccLen
    {
      NoDifference(Word(LayoutOf(version, level), cw, j));
    }
    DamagedSymbolReads(m, version, level, mask, payload);
  }

  lemma {:induction false} NoDifference(a: Poly)
    ensures Differences(a, a) == 0
  {
    if a != [] {
      NoDifference(a[..|a| - 1]);
    }
  }
}
