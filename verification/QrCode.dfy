/** `encode_matrix` and a reader that recovers the payload from the modules alone. */
module QrCode {
  import opened Bits
  import opened Outcome
  import opened QrTables
  import opened QrGeometry
  import opened QrMatrix
  import QrField
  import QrData
  import QrBlocks
  import QrCapacity

  type Bytes = seq<Byte>

  // ---- the reader ---------------------------------------------------------------

  /** The format word, read from its first copy. */
  function ReadFormat(m: Grid): nat
    requires Square(m, |m|) && |m| >= 21
  {
    QrData.Value(seq(15, i requires 0 <= i < 15 => At(m, FormatCell(14 - i))))
  }

  function ReadModule(m: Grid, version: Version, mask: nat, k: nat): bool
    requires Square(m, Size(version)) && k < |DataCells(version)|
  {
    DataCellsInside(version, k);
    At(m, DataCells(version)[k]) != Masked(mask, DataCells(version)[k])
  }

  /** The first `n` data bits. */
  function ReadBits(m: Grid, version: Version, mask: nat, n: nat): (bits: seq<bool>)
    requires Square(m, Size(version)) && n <= |DataCells(version)|
    ensures |bits| == n && forall k :: 0 <= k < n ==> bits[k] == ReadModule(m, version, mask, k)
  {
    seq(n, k requires 0 <= k < n => ReadModule(m, version, mask, k))
  }

  /** The first `n` data bytes. */
  function ReadBytes(m: Grid, version: Version, mask: nat, n: nat): (cw: Bytes)
    requires Square(m, Size(version)) && 8 * n <= |DataCells(version)|
    ensures |cw| == n
  {
    hide *;
    QrData.Pack(ReadBits(m, version, mask, 8 * n))
  }

  /** The codewords, read in zigzag order with the mask removed. */
  function ReadCodewords(m: Grid, version: Version, mask: nat): (cw: Bytes)
    requires Square(m, Size(version))
    ensures |cw| == TotalCodewords(version)
  {
    QrCapacity.CapacitySuffices(version);
    ReadBytes(m, version, mask, TotalCodewords(version))
  }

  predicate SymbolShape(m: Grid) {
    |m| >= 21 && |m| <= 177 && |m| % 4 == 1 && Square(m, |m|)
  }

  /** Version from the size, level and mask from the format word, payload from the data modules. */
  function Decode(m: Grid): Option<Bytes> {
    hide TotalCodewords, DataCodewords, QrBlocks.LayoutOf, QrBlocks.DataLength, Xor, ReadFormat, Square;
    if !SymbolShape(m) then None
    else
      var version: Version := (|m| - 17) / 4;
      var data := Xor(ReadFormat(m), FORMAT_MASK) / 1024;
      if data >= 16 then None
      else
        var level := if data / 8 == 1 then Low else Medium;
        var l := QrBlocks.LayoutOf(version, level);
        QrBlocks.LayoutFacts(version, level);
        QrData.ReadPayload(QrBlocks.ReadData(l, ReadCodewords(m, version, data % 8)), version)
  }

  // ---- what a drawn symbol is -------------------------------------------------------

  /** The codewords of a payload. */
  function CodewordsOf(payload: Bytes, version: Version, level: Level): (cw: Bytes)
    requires Fits(version, level, |payload|)
    ensures |cw| == TotalCodewords(version)
  {
    QrBlocks.LayoutFacts(version, level);
    QrBlocks.Codewords(QrBlocks.LayoutOf(version, level), QrData.DataBytes(payload, version, level))
  }

  /** Data modules carry the masked codeword bits; function modules have the colours of their patterns and words. */
  ghost predicate IsSymbol(m: Grid, version: Version, level: Level, mask: int, cw: Bytes)
    requires -8 <= mask < 8
  {
    && Square(m, Size(version))
    && (forall k :: 0 <= k < |DataCells(version)| ==>
          Inside(Size(version), DataCells(version)[k])
          && At(m, DataCells(version)[k]) == (DataBit(cw, k) != Masked(MaskIndex(mask), DataCells(version)[k])))
    && (forall c :: Inside(Size(version), c) && IsFunction(version, c) ==>
          At(m, c) == PatternDark(version, FormatBits(level, mask), c))
  }

  /** That pins every module: there is one symbol for each version, level, mask and codewords. */
  lemma SymbolUnique(m: Grid, other: Grid, version: Version, level: Level, mask: int, cw: Bytes)
    requires -8 <= mask < 8
    requires IsSymbol(m, version, level, mask, cw) && IsSymbol(other, version, level, mask, cw)
    ensures m == other
  {
    hide IsFunction, PatternDark, FormatBits, DataCells, DataBit, MaskFn;
    forall y | 0 <= y < |m| ensures m[y] == other[y] {
      forall x | 0 <= x < |m[y]| ensures m[y][x] == other[y][x] {
        var c := Cell(x, y);
        EveryModule(version, c);
        assert At(m, c) == At(other, c);
      }
    }
  }

  /** Bits of the format word are where a reader looks for them, in both copies; the dark module is dark. */
  lemma FormatCopies(m: Grid, version: Version, level: Level, mask: int, cw: Bytes, i: nat)
    requires -8 <= mask < 8 && IsSymbol(m, version, level, mask, cw) && i < 15
    ensures var size := Size(version);
            && Inside(size, FormatCell(i)) && Inside(size, FormatCell2(size, i)) && Inside(size, Cell(8, size - 8))
            && At(m, FormatCell(i)) == Bit(FormatBits(level, mask), i)
            && At(m, FormatCell2(size, i)) == Bit(FormatBits(level, mask), i)
            && At(m, Cell(8, size - 8))
  {
    hide At, Square, FormatBits, Bit, DataCells, DataBit, MaskFn, InAlignment, InFinders, InTiming, InVersion;
    var size, word := Size(version), FormatBits(level, mask);
    WordColour(size, word, i);
    WordColour(size, word, 15 + i);
    WordColour(size, word, 30);
  }

  lemma WordColour(size: int, word: nat, i: nat)
    requires size >= 21 && i < 31
    ensures var dot := FormatDots(size, word)[i];
            Inside(size, dot.cell) && InFormat(size, dot.cell) && DotDark(FormatDots(size, word), dot.cell) == dot.dark
  {
    hide FormatDots, InFormat, DotsInside;
    var dots := FormatDots(size, word);
    FormatDotsInside(size, word);
    FormatDotsCover(size, word, dots[i].cell);
    FormatDistinct(size, word);
    DotInside(size, dots, i);
    if dots[i].dark {
      assert dots[i] == Dot(dots[i].cell, true);
    }
  }

  lemma DotInside(size: int, dots: seq<Dot>, i: nat)
    requires DotsInside(size, dots) && i < |dots|
    ensures Inside(size, dots[i].cell)
  {
  }

  // ---- reading a drawn symbol ---------------------------------------------------------

  lemma FormatWordFits(level: Level, mask: int)
    requires -8 <= mask < 8
    ensures FormatBits(level, mask) < Pow2(15)
    ensures Xor(FormatBits(level, mask), FORMAT_MASK) / 1024 == if mask < 0 then 32 + mask else 8 * LevelBits(level) + mask
  {
    hide Xor, Bch, Pow2;
    var data := FormatData(level, mask);
    var word := (1024 * data + Bch(data, 0x537, 9, 10) % 1024) % 32768;
    Pow2Fifteen(15);
    XorBound(word, FORMAT_MASK, 15);
    XorCancel(word, FORMAT_MASK);
    WordTop(data, Bch(data, 0x537, 9, 10) % 1024);
  }

  lemma WordTop(data: nat, low: nat)
    requires low < 1024
    ensures (1024 * data + low) % 32768 / 1024 == data % 32
  {
    var q, r := data / 32, data % 32;
    assert 1024 * data + low == 32768 * q + (1024 * r + low);
    assert (1024 * data + low) % 32768 == 1024 * r + low;
  }

  lemma Pow2Fifteen(n: nat)
    requires n == 15
    ensures Pow2(n) == 32768
  {
    hide Pow2;
    Pow2Values();
    Pow2Add(8, 7);
  }

  lemma ReadFormatOfSymbol(m: Grid, version: Version, level: Level, mask: int, cw: Bytes)
    requires -8 <= mask < 8 && IsSymbol(m, version, level, mask, cw)
    ensures ReadFormat(m) == FormatBits(level, mask)
  {
    hide FormatBits, QrData.Value, Bit, At, PatternDark, IsFunction, DataCells;
    var w := FormatBits(level, mask);
    var bits := seq(15, i requires 0 <= i < 15 => At(m, FormatCell(14 - i)));
    forall i | 0 <= i < 15 ensures bits[i] == QrData.BitsOf(w, 15)[i] {
      FormatCopies(m, version, level, mask, cw, 14 - i);
    }
    assert bits == QrData.BitsOf(w, 15);
    FormatWordFits(level, mask);
    QrData.ValueOfBits(w, 15);
  }

  lemma ReadCodewordsOfSymbol(m: Grid, version: Version, level: Level, mask: int, cw: Bytes)
    requires 0 <= mask < 8 && IsSymbol(m, version, level, mask, cw) && |cw| == TotalCodewords(version)
    ensures ReadCodewords(m, version, mask) == cw
  {
    hide TotalCodewords, DataCells, At, Square, MaskFn, ReadBits, QrData.StreamBit, QrData.Pack, FormatBits, Bit,
         PatternDark, IsFunction;
    QrCapacity.CapacitySuffices(version);
    var bits := QrData.Unpack(cw);
    var read := ReadBits(m, version, mask, 8 * TotalCodewords(version));
    forall k | 0 <= k < |bits| ensures read[k] == bits[k] {
      DataCellsInside(version, k);
    }
    assert read == bits;
    QrData.PackUnpack(cw);
  }

  /** Decoding a symbol drawn for a payload returns the payload. */
  lemma DecodeSymbol(m: Grid, version: Version, level: Level, mask: int, payload: Bytes)
    requires Fits(version, level, |payload|) && 0 <= mask < 8
    requires IsSymbol(m, version, level, mask, CodewordsOf(payload, version, level))
    ensures Decode(m) == Some(payload)
  {
    hide TotalCodewords, DataCodewords, FormatBits, Xor, ReadFormat, ReadCodewords, Fits, QrBlocks.Codewords,
         QrBlocks.ReadData, QrData.ReadPayload, QrData.DataBytes, QrBlocks.LayoutOf, QrBlocks.Valid,
         QrBlocks.DataLength, FORMAT_MASK, PatternDark, IsFunction, DataCells;
    var cw := CodewordsOf(payload, version, level);
    var l := QrBlocks.LayoutOf(version, level);
    var data := QrData.DataBytes(payload, version, level);
    SymbolHasShape(m, version, level, mask, cw);
    ReadFormatOfSymbol(m, version, level, mask, cw);
    FormatWordFits(level, mask);
    ReadCodewordsOfSymbol(m, version, level, mask, cw);
    QrBlocks.LayoutFacts(version, level);
    QrBlocks.ReadInterleaved(l, data);
    QrData.ReadEncoded(payload, version, level);
  }

  /** The format word tells the two levels apart exactly when the mask is not negative. */
  lemma WordNamesLevel(mask: int)
    requires -8 <= mask < 8
    ensures FormatBits(Low, mask) != FormatBits(Medium, mask) <==> mask >= 0
  {
    hide Xor, Bch;
    FormatWordFits(Low, mask);
    FormatWordFits(Medium, mask);
  }

  /**
    * With a negative mask the word is the same for both levels and carries level code 3 with the mask
    * that was applied; a reader that knows levels L and M only refuses it.
    */
  lemma NegativeMaskLosesLevel(m: Grid, version: Version, level: Level, mask: int, cw: Bytes)
    requires -8 <= mask < 0 && IsSymbol(m, version, level, mask, cw)
    ensures FormatBits(Low, mask) == FormatBits(Medium, mask)
    ensures Xor(ReadFormat(m), FORMAT_MASK) / 1024 == 8 * 3 + MaskIndex(mask)
    ensures Decode(m) == None
  {
    hide TotalCodewords, DataCodewords, FormatBits, Xor, ReadFormat, ReadCodewords, QrBlocks.ReadData, QrData.ReadPayload,
         QrBlocks.LayoutOf, FORMAT_MASK, PatternDark, IsFunction, DataCells;
    SymbolHasShape(m, version, level, mask, cw);
    ReadFormatOfSymbol(m, version, level, mask, cw);
    FormatWordFits(level, mask);
    WordNamesLevel(mask);
  }

  lemma SymbolHasShape(m: Grid, version: Version, level: Level, mask: int, cw: Bytes)
    requires -8 <= mask < 8 && IsSymbol(m, version, level, mask, cw)
    ensures SymbolShape(m) && (|m| - 17) / 4 == version
  {
  }

  // ---- the program ---------------------------------------------------------------------

  /** Placing the data leaves every function module alone. */
  lemma DataKeepsPatterns(version: Version, g: Grid, after: Grid, cw: Bytes, mask: nat, c: Cell)
    requires Square(g, Size(version)) && Square(after, Size(version)) && Inside(Size(version), c) && IsFunction(version, c)
    requires Placed(version, g, after, Zigzag(Size(version)), cw, mask)
    ensures At(after, c) == At(g, c)
  {
    hide IsFunction, Columns, At, DataBit, MaskFn;
    FreeMember(version, Zigzag(Size(version)), c);
  }

  /** Drawing the format word again changes its own modules only, and no data module is one of them. */
  lemma FormatIsFunction(version: Version, word: nat, other: nat, c: Cell)
    ensures InFormat(Size(version), c) ==> IsFunction(version, c)
    ensures !InFormat(Size(version), c) ==> PatternDark(version, word, c) == PatternDark(version, other, c)
  {
    hide InAlignment, InFinders, InTiming, InVersion, InFormat, DotDark, FinderDark, AlignmentDark;
  }

  method DrawSymbol(version: Version, level: Level, mask: int, codewords: Bytes) returns (m: Grid)
    requires -8 <= mask < 8
    ensures IsSymbol(m, version, level, mask, codewords)
  {
    hide At, Square, IsFunction, FormatBits, PatternDark, DataBit, MaskFn, Columns, Free, InFormat, DotDark;
    var builder := new MatrixBuilder(version);
    ghost var blank := builder.modules;
    builder.DrawData(codewords, MaskIndex(mask));
    ghost var g := builder.modules;
    builder.DrawFormatWord(level, mask);
    m := builder.modules;
    forall k | 0 <= k < |DataCells(version)|
      ensures Inside(Size(version), DataCells(version)[k])
      ensures At(m, DataCells(version)[k])
              == (DataBit(codewords, k) != Masked(MaskIndex(mask), DataCells(version)[k]))
    {
      DataCellsInside(version, k);
      FormatIsFunction(version, 0, 0, DataCells(version)[k]);
    }
    forall c | Inside(Size(version), c) && IsFunction(version, c)
      ensures At(m, c) == PatternDark(version, FormatBits(level, mask), c)
    {
      DataKeepsPatterns(version, blank, g, codewords, MaskIndex(mask), c);
      FormatIsFunction(version, FormatBits(Low, 0), FormatBits(level, mask), c);
      FormatColour(version, FormatBits(level, mask), c);
    }
  }

  lemma FormatColour(version: Version, word: nat, c: Cell)
    ensures InFormat(Size(version), c) ==> PatternDark(version, word, c) == DotDark(FormatDots(Size(version), word), c)
  {
  }

  /** The smallest version that holds the bytes. */
  method SelectVersion(level: Level, nbytes: nat) returns (r: Option<Version>)
    ensures r.Some? ==> Fits(r.value, level, nbytes)
                        && forall v: Version :: v < r.value ==> !Fits(v, level, nbytes)
    ensures r.None? ==> forall v: Version :: !Fits(v, level, nbytes)
  {
    hide Fits;
    for version := 1 to 41
      invariant forall v: Version :: v < version ==> !Fits(v, level, nbytes)
    {
      if Fits(version, level, nbytes) {
        return Some(version);
      }
    }
    r := None;
  }

  datatype QrError = EmptyPayload | TooLarge | BadMask

  datatype Choice = Choice(version: Version, level: Level)

  predicate SmallestFit(version: Version, level: Level, nbytes: nat) {
    Fits(version, level, nbytes) && forall v: Version :: v < version ==> !Fits(v, level, nbytes)
  }

  predicate NoFit(level: Level, nbytes: nat) {
    forall v: Version :: !Fits(v, level, nbytes)
  }

  /** Automatic choice: the asked level if any version fits there, else level L. */
  ghost predicate Chosen(c: Choice, level: Level, version: Option<Version>, nbytes: nat) {
    if version.Some? then c == Choice(version.value, level) && Fits(version.value, level, nbytes)
    else
      || (c.level == level && SmallestFit(c.version, level, nbytes))
      || (c.level == Low && NoFit(level, nbytes) && SmallestFit(c.version, Low, nbytes))
  }

  method ChooseVersion(level: Level, version: Option<Version>, nbytes: nat) returns (r: Option<Choice>)
    ensures r.Some? ==> Chosen(r.value, level, version, nbytes)
    ensures r.None? ==> forall c: Choice :: !Chosen(c, level, version, nbytes)
  {
    hide Fits;
    if version.Some? {
      if !Fits(version.value, level, nbytes) {
        return None;
      }
      return Some(Choice(version.value, level));
    }
    var v := SelectVersion(level, nbytes);
    if v.Some? {
      return Some(Choice(v.value, level));
    }
    var w := SelectVersion(Low, nbytes);
    if w.Some? {
      return Some(Choice(w.value, Low));
    }
    r := None;
  }

  /** The first of eight candidate grids with the smallest score. */
  ghost predicate FirstBest(candidates: seq<Grid>, best: nat, score: Grid -> int) {
    && best < |candidates|
    && (forall k :: 0 <= k < |candidates| ==> score(candidates[best]) <= score(candidates[k]))
    && (forall k :: 0 <= k < best ==> score(candidates[best]) < score(candidates[k]))
  }

  /** Among one symbol per mask, `m` is the first with the smallest score, drawn with mask `best`. */
  ghost predicate BestOf(m: Grid, version: Version, level: Level, codewords: Bytes, score: Grid -> int, best: int) {
    0 <= best < 8 &&
    exists candidates: seq<Grid> :: |candidates| == 8 && FirstBest(candidates, best, score) && m == candidates[best]
      && forall k :: 0 <= k < 8 ==> IsSymbol(candidates[k], version, level, k, codewords)
  }

  method BestSymbol(version: Version, level: Level, codewords: Bytes, score: Grid -> int)
    returns (m: Grid, ghost best: nat)
    ensures best < 8 && IsSymbol(m, version, level, best, codewords)
    ensures BestOf(m, version, level, codewords, score, best)
  {
    hide IsSymbol;
    m := DrawSymbol(version, level, 0, codewords);
    var bestScore := score(m);
    ghost var candidates := [m];
    best := 0;
    for candidate := 1 to 8
      invariant |candidates| == candidate && bestScore == score(m)
      invariant FirstBest(candidates, best, score) && m == candidates[best]
      invariant forall k :: 0 <= k < candidate ==> IsSymbol(candidates[k], version, level, k, codewords)
    {
      var drawn := DrawSymbol(version, level, candidate, codewords);
      var value := score(drawn);
      candidates := candidates + [drawn];
      if value < bestScore {
        m, bestScore, best := drawn, value, candidate;
      }
    }
  }

  predicate MaskKnown(mask: Option<int>) {
    mask.Some? ==> -8 <= mask.value < 8
  }

  /** `r` is the symbol of the payload at the chosen version and level, with the asked mask or the first best one. */
  ghost predicate Encodes(r: Grid, payload: Bytes, c: Choice, mask: Option<int>, score: Grid -> int, k: int)
    requires Fits(c.version, c.level, |payload|) && -8 <= k < 8
  {
    var cw := CodewordsOf(payload, c.version, c.level);
    && IsSymbol(r, c.version, c.level, k, cw)
    && if mask.Some? then k == mask.value else k >= 0 && BestOf(r, c.version, c.level, cw, score, k)
  }

  /** Every payload that fits is drawn; Decode returns it exactly when the mask is automatic or from 0 to 7. */
  method EncodeMatrix(payload: Bytes, level: Level, version: Option<Version>, mask: Option<int>, score: Grid -> int)
    returns (r: Result<Grid, QrError>)
    ensures r.Ok? ==> Decode(r.value) == if mask.Some? && mask.value < 0 then None else Some(payload)
    ensures r.Ok? ==> payload != [] && exists c: Choice, k: int ::
              -8 <= k < 8 && Chosen(c, level, version, |payload|) && Fits(c.version, c.level, |payload|)
              && Encodes(r.value, payload, c, mask, score, k)
    ensures r == Err(EmptyPayload) <==> payload == []
    ensures r == Err(TooLarge) <==>
              payload != [] && forall c: Choice :: !Chosen(c, level, version, |payload|)
    ensures r == Err(BadMask) <==>
              payload != [] && !MaskKnown(mask) && exists c: Choice :: Chosen(c, level, version, |payload|)
  {
    hide Decode, IsSymbol, Fits, QrBlocks.Codewords, QrBlocks.LayoutOf, QrData.DataBytes, TotalCodewords, DataCodewords,
         BestOf, Chosen;
    if payload == [] {
      return Err(EmptyPayload);
    }
    var chosen := ChooseVersion(level, version, |payload|);
    if chosen.None? {
      return Err(TooLarge);
    }
    var c := chosen.value;
    ChosenFits(c, level, version, |payload|);
    if !MaskKnown(mask) {
      return Err(BadMask);
    }
    var tables := QrField.BuildTables();
    var data := QrData.EncodeData(payload, c.version, c.level);
    QrBlocks.LayoutFacts(c.version, c.level);
    var codewords := QrBlocks.AddEccAndInterleave(tables, QrBlocks.LayoutOf(c.version, c.level), data);
    if mask.Some? {
      var m := DrawSymbol(c.version, c.level, mask.value, codewords);
      if mask.value < 0 {
        NegativeMaskLosesLevel(m, c.version, c.level, mask.value, codewords);
      } else {
        DecodeSymbol(m, c.version, c.level, mask.value, payload);
      }
      assert Encodes(m, payload, c, mask, score, mask.value);
      return Ok(m);
    }
    var m, best := BestSymbol(c.version, c.level, codewords, score);
    DecodeSymbol(m, c.version, c.level, best, payload);
    assert Encodes(m, payload, c, mask, score, best);
    r := Ok(m);
  }

  lemma ChosenFits(c: Choice, level: Level, version: Option<Version>, nbytes: nat)
    requires Chosen(c, level, version, nbytes)
    ensures Fits(c.version, c.level, nbytes)
  {
    hide Fits;
  }
}
