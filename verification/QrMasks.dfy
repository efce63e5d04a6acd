/** What each mask does to the data modules of a drawn symbol, by row and column. */
module QrMasks {
  import opened Bits
  import opened QrTables
  import opened QrGeometry
  import opened QrMatrix
  import opened QrCode

  /** Row and column of the k-th data module. */
  function Row(version: Version, k: nat): (r: nat)
    requires k < |DataCells(version)|
    ensures r == DataCells(version)[k].y && r < Size(version)
  {
    hide IsFunction, DataCells;
    DataCellsInside(version, k);
    DataCells(version)[k].y
  }

  function Column(version: Version, k: nat): (c: nat)
    requires k < |DataCells(version)|
    ensures c == DataCells(version)[k].x && c < Size(version)
  {
    hide IsFunction, DataCells;
    DataCellsInside(version, k);
    DataCells(version)[k].x
  }

  /** The k-th data module does not show the k-th bit of the codewords, highest bit of each byte first. */
  ghost predicate Toggled(m: Grid, version: Version, cw: Bytes, k: nat)
    requires Square(m, Size(version)) && k < |DataCells(version)|
  {
    m[Row(version, k)][Column(version, k)] != (k < 8 * |cw| && Bit(cw[k / 8], 7 - k % 8))
  }

  lemma ToggledIs(m: Grid, version: Version, level: Level, mask: int, cw: Bytes, k: nat)
    requires -8 <= mask < 8 && IsSymbol(m, version, level, mask, cw) && k < |DataCells(version)|
    ensures Toggled(m, version, cw, k) == MaskFn(MaskIndex(mask), Row(version, k), Column(version, k))
  {
    hide MaskFn, Bit, IsFunction, DataCells, PatternDark, FormatBits;
    assert DataCells(version)[k] == Cell(Column(version, k), Row(version, k));
  }

  /** The row and column arithmetic of the masks that are products of neither. */
  lemma SumMasks(m: Grid, version: Version, level: Level, mask: int, cw: Bytes, k: nat)
    requires 0 <= mask < 8 && IsSymbol(m, version, level, mask, cw) && k < |DataCells(version)|
    ensures mask == 0 ==> (Toggled(m, version, cw, k) <==> Row(version, k) % 2 == Column(version, k) % 2)
    ensures mask == 1 ==> (Toggled(m, version, cw, k) <==> Row(version, k) % 2 == 0)
    ensures mask == 2 ==> (Toggled(m, version, cw, k) <==> Column(version, k) % 3 == 0)
    ensures mask == 3 ==> (Toggled(m, version, cw, k) <==> (Row(version, k) + Column(version, k)) % 3 == 0)
    ensures mask == 4 ==> (Toggled(m, version, cw, k) <==> Row(version, k) / 2 % 2 == Column(version, k) / 3 % 2)
  {
    hide Toggled, IsSymbol, DataCells;
    ToggledIs(m, version, level, mask, cw, k);
  }

  lemma EvenPart(q: nat, r: nat)
    ensures (2 * (3 * q) + r) % 2 == r % 2
  {
  }

  lemma ThirdPart(q: nat, r: nat)
    ensures (3 * (2 * q) + r) % 3 == r % 3
  {
  }

  lemma ModSix(p: nat)
    ensures p % 2 == p % 6 % 2 && p % 3 == p % 6 % 3
  {
    EvenPart(p / 6, p % 6);
    ThirdPart(p / 6, p % 6);
  }

  lemma ResiduesOf(r: nat)
    requires r < 6
    ensures r % 2 + r % 3 == 0 <==> r == 0
    ensures (r % 2 + r % 3) % 2 == 0 <==> r < 3
  {
  }

  lemma Residues(p: nat, s: nat)
    ensures p % 2 + p % 3 == 0 <==> p % 6 == 0
    ensures (p % 2 + p % 3) % 2 == 0 <==> p % 6 < 3
    ensures (s % 2 + p % 3) % 2 == 0 <==> (s % 2 == 1 <==> p % 3 == 1)
  {
    ModSix(p);
    ResiduesOf(p % 6);
    var a, b := s % 2, p % 3;
    assert a < 2 && b < 3;
  }

  lemma ProductForms(r: nat, c: nat)
    ensures MaskFn(5, r, c) <==> (r * c) % 6 == 0
    ensures MaskFn(6, r, c) <==> (r * c) % 6 < 3
    ensures MaskFn(7, r, c) <==> ((r + c) % 2 == 1 <==> (r * c) % 3 == 1)
  {
    Residues(r * c, r + c);
  }

  /** The masks over the product of row and column, by its residue modulo 6. */
  lemma ProductMasks(m: Grid, version: Version, level: Level, mask: int, cw: Bytes, k: nat)
    requires 0 <= mask < 8 && IsSymbol(m, version, level, mask, cw) && k < |DataCells(version)|
    ensures var r, c := Row(version, k), Column(version, k);
            && (mask == 5 ==> (Toggled(m, version, cw, k) <==> (r * c) % 6 == 0))
            && (mask == 6 ==> (Toggled(m, version, cw, k) <==> (r * c) % 6 < 3))
            && (mask == 7 ==> (Toggled(m, version, cw, k) <==> ((r + c) % 2 == 1 <==> (r * c) % 3 == 1)))
  {
    hide Toggled, IsSymbol, DataCells, MaskFn;
    ToggledIs(m, version, level, mask, cw, k);
    ProductForms(Row(version, k), Column(version, k));
  }

  // ---- the pictures ----------------------------------------------------------------

  /** Mask 1 toggles whole rows, and of two neighbouring rows exactly one. */
  lemma MaskOneIsRows(m: Grid, version: Version, level: Level, cw: Bytes, j: nat, k: nat)
    requires IsSymbol(m, version, level, 1, cw) && j < |DataCells(version)| && k < |DataCells(version)|
    ensures Row(version, j) == Row(version, k) ==> Toggled(m, version, cw, j) == Toggled(m, version, cw, k)
    ensures Row(version, j) + 1 == Row(version, k) ==> Toggled(m, version, cw, j) != Toggled(m, version, cw, k)
  {
    hide Toggled, IsSymbol, DataCells;
    SumMasks(m, version, level, 1, cw, j);
    SumMasks(m, version, level, 1, cw, k);
  }

  /** Mask 2 toggles whole columns, one of any three neighbours. */
  lemma MaskTwoIsColumns(m: Grid, version: Version, level: Level, cw: Bytes, j: nat, k: nat)
    requires IsSymbol(m, version, level, 2, cw) && j < |DataCells(version)| && k < |DataCells(version)|
    ensures Column(version, j) == Column(version, k) ==> Toggled(m, version, cw, j) == Toggled(m, version, cw, k)
    ensures Column(version, j) + 3 == Column(version, k) ==> Toggled(m, version, cw, j) == Toggled(m, version, cw, k)
    ensures 1 <= Column(version, k) - Column(version, j) <= 2 && Toggled(m, version, cw, j) ==>
              !Toggled(m, version, cw, k)
  {
    hide Toggled, IsSymbol, DataCells;
    SumMasks(m, version, level, 2, cw, j);
    SumMasks(m, version, level, 2, cw, k);
  }

  /** Mask 4 is constant on blocks two rows high and three columns wide; blocks that share a side differ. */
  lemma MaskFourIsBlocks(m: Grid, version: Version, level: Level, cw: Bytes, j: nat, k: nat)
    requires IsSymbol(m, version, level, 4, cw) && j < |DataCells(version)| && k < |DataCells(version)|
    ensures var r, c, s, d := Row(version, j) / 2, Column(version, j) / 3, Row(version, k) / 2, Column(version, k) / 3;
            && (r == s && c == d ==> Toggled(m, version, cw, j) == Toggled(m, version, cw, k))
            && (r + 1 == s && c == d ==> Toggled(m, version, cw, j) != Toggled(m, version, cw, k))
            && (r == s && c + 1 == d ==> Toggled(m, version, cw, j) != Toggled(m, version, cw, k))
  {
    hide Toggled, IsSymbol, DataCells;
    SumMasks(m, version, level, 4, cw, j);
    SumMasks(m, version, level, 4, cw, k);
  }

  /** Masks 0, 3, 5, 6 and 7 treat a module and its mirror image in the diagonal alike. */
  lemma MaskIsSymmetric(m: Grid, version: Version, level: Level, mask: int, cw: Bytes, j: nat, k: nat)
    requires mask in {0, 3, 5, 6, 7} && IsSymbol(m, version, level, mask, cw)
    requires j < |DataCells(version)| && k < |DataCells(version)|
    requires Row(version, j) == Column(version, k) && Column(version, j) == Row(version, k)
    ensures Toggled(m, version, cw, j) == Toggled(m, version, cw, k)
  {
    hide Toggled, IsSymbol, DataCells, MaskFn;
    ToggledIs(m, version, level, mask, cw, j);
    ToggledIs(m, version, level, mask, cw, k);
    SymmetricForm(mask, Row(version, j), Column(version, j));
  }

  lemma SymmetricForm(mask: nat, r: nat, c: nat)
    requires mask in {0, 3, 5, 6, 7}
    ensures MaskFn(mask, r, c) == MaskFn(mask, c, r)
  {
    var p, q := r * c, c * r;
    assert p == q;
  }

  /** A negative mask toggles as the one eight higher, Python's index from the end. */
  lemma NegativeMaskToggles(m: Grid, n: Grid, version: Version, level: Level, mask: int, cw: Bytes, k: nat)
    requires -8 <= mask < 0 && k < |DataCells(version)|
    requires IsSymbol(m, version, level, mask, cw) && IsSymbol(n, version, level, mask + 8, cw)
    ensures Toggled(m, version, cw, k) == Toggled(n, version, cw, k)
  {
    hide Toggled, IsSymbol, DataCells, MaskFn;
    ToggledIs(m, version, level, mask, cw, k);
    ToggledIs(n, version, level, mask + 8, cw, k);
  }

  /** Every mask toggles the corner, so a row, column or block with it is among the toggled ones. */
  lemma CornerIsMasked(mask: nat)
    requires mask < 8
    ensures Masked(mask, Cell(0, 0))
  {
  }

  /** Different masks never draw the same symbol: their format words differ. */
  lemma MaskShows(m: Grid, version: Version, level: Level, mask: int, other: int, cw: Bytes, dw: Bytes)
    requires -8 <= mask < 8 && -8 <= other < 8 && mask != other
    requires IsSymbol(m, version, level, mask, cw)
    ensures !IsSymbol(m, version, level, other, dw)
  {
    hide IsSymbol, FormatBits, ReadFormat;
    FormatWordFits(level, mask);
    FormatWordFits(level, other);
    ReadFormatOfSymbol(m, version, level, mask, cw);
    if IsSymbol(m, version, level, other, dw) {
      ReadFormatOfSymbol(m, version, level, other, dw);
    }
  }
}
