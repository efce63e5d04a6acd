/** Drawing a QR symbol: function patterns, masked data modules, format information. */
module QrMatrix {
  import opened Bits
  import opened QrTables
  import opened QrGeometry
  import QrData

  type Grid = seq<seq<bool>>

  predicate Square(g: Grid, size: int): (r: bool)
    ensures r ==> |g| == size
  {
    |g| == size && forall y :: 0 <= y < size ==> |g[y]| == size
  }

  function At(g: Grid, c: Cell): bool
    requires Square(g, |g|) && Inside(|g|, c)
  {
    g[c.y][c.x]
  }

  function Put(g: Grid, c: Cell, b: bool): (r: Grid)
    requires Square(g, |g|) && Inside(|g|, c)
    ensures Square(r, |g|)
    ensures forall d :: Inside(|g|, d) ==> At(r, d) == if d == c then b else At(g, d)
  {
    g[c.y := g[c.y][c.x := b]]
  }

  function Blank(size: nat): (g: Grid)
    ensures Square(g, size)
    ensures forall d :: Inside(size, d) ==> !At(g, d)
  {
    seq(size, _ => seq(size, _ => false))
  }

  // ---- format and version words ------------------------------------------------

  function LevelBits(level: Level): nat {
    if level == Low then 1 else 0
  }

  /** BCH remainder register after n shifts. */
  function Bch(data: nat, poly: nat, top: nat, n: nat): nat {
    if n == 0 then data
    else
      var rem := Bch(data, poly, top, n - 1);
      Xor(2 * rem, if Bit(rem, top) then poly else 0)
  }

  const FORMAT_MASK: nat := 0x5412

  /** Python's list index: a negative mask counts from the end. */
  function MaskIndex(mask: int): (m: nat)
    requires -8 <= mask < 8
    ensures m < 8
  {
    if mask < 0 then mask + 8 else mask
  }

  /** `(level << 3) | mask`; of a negative number, the low fifteen bits. */
  function FormatData(level: Level, mask: int): nat
    requires -8 <= mask < 8
  {
    if mask < 0 then 32768 + mask else 8 * LevelBits(level) + mask
  }

  /** The fifteen bits that are drawn. */
  function FormatBits(level: Level, mask: int): nat
    requires -8 <= mask < 8
  {
    var data := FormatData(level, mask);
    Xor((1024 * data + Bch(data, 0x537, 9, 10) % 1024) % 32768, FORMAT_MASK)
  }

  function VersionBits(version: Version): nat {
    4096 * version + Bch(version, 0x1F25, 11, 12) % 4096
  }

  method ComputeFormatBits(level: Level, mask: int) returns (bits: nat)
    requires -8 <= mask < 8
    ensures bits == FormatBits(level, mask)
  {
    hide Xor, Bit;
    var data := FormatData(level, mask);
    var rem := data;
    for i := 0 to 10
      invariant rem == Bch(data, 0x537, 9, i)
    {
      rem := Xor(2 * rem, if Bit(rem, 9) then 0x537 else 0);
    }
    bits := Xor((1024 * data + rem % 1024) % 32768, FORMAT_MASK);
  }

  method ComputeVersionBits(version: Version) returns (bits: nat)
    ensures bits == VersionBits(version)
  {
    hide Xor, Bit;
    var rem: nat := version;
    for i := 0 to 12
      invariant rem == Bch(version, 0x1F25, 11, i)
    {
      rem := Xor(2 * rem, if Bit(rem, 11) then 0x1F25 else 0);
    }
    bits := 4096 * version + rem % 4096;
  }

  /** Where bit i of the first copy of the format word is drawn. */
  function FormatCell(i: nat): Cell {
    if i < 6 then Cell(8, i)
    else if i == 6 then Cell(8, 7)
    else if i == 7 then Cell(8, 8)
    else if i == 8 then Cell(7, 8)
    else Cell(14 - i, 8)
  }

  /** The second copy, split between the other two corners. */
  function FormatCell2(size: int, i: nat): Cell {
    if i < 8 then Cell(size - 1 - i, 8) else Cell(8, size - 15 + i)
  }

  // ---- masks ---------------------------------------------------------------------

  predicate MaskFn(mask: nat, r: nat, c: nat) {
    match mask
    case 0 => (r + c) % 2 == 0
    case 1 => r % 2 == 0
    case 2 => c % 3 == 0
    case 3 => (r + c) % 3 == 0
    case 4 => (r / 2 + c / 3) % 2 == 0
    case 5 => (r * c) % 2 + (r * c) % 3 == 0
    case 6 => ((r * c) % 2 + (r * c) % 3) % 2 == 0
    case _ => ((r + c) % 2 + (r * c) % 3) % 2 == 0
  }

  predicate Masked(mask: nat, c: Cell)
    requires c.x >= 0 && c.y >= 0
  {
    MaskFn(mask, c.y, c.x)
  }

  function Max(a: int, b: int): int {
    if a < b then b else a
  }

  function Abs(a: int): int {
    if a < 0 then -a else a
  }

  /** Distance in rings from a centre. */
  function Ring(cx: int, cy: int, c: Cell): int {
    Max(Abs(c.x - cx), Abs(c.y - cy))
  }

  // ---- drawing words dot by dot ------------------------------------------------------

  datatype Dot = Dot(cell: Cell, dark: bool)

  predicate DotsInside(size: int, dots: seq<Dot>) {
    forall i :: 0 <= i < |dots| ==> Inside(size, dots[i].cell)
  }

  /** The first n dots drawn in order, later ones over earlier ones. */
  function Stamp(g: Grid, dots: seq<Dot>, n: nat): (r: Grid)
    requires Square(g, |g|) && DotsInside(|g|, dots) && n <= |dots|
    ensures Square(r, |g|)
  {
    if n == 0 then g
    else Put(Stamp(g, dots, n - 1), dots[n - 1].cell, dots[n - 1].dark)
  }

  predicate Covers(dots: seq<Dot>, c: Cell) {
    exists i :: 0 <= i < |dots| && dots[i].cell == c
  }

  lemma {:induction false} StampElsewhere(g: Grid, dots: seq<Dot>, n: nat, c: Cell)
    requires Square(g, |g|) && DotsInside(|g|, dots) && Inside(|g|, c) && n <= |dots|
    requires !Covers(dots, c)
    ensures At(Stamp(g, dots, n), c) == At(g, c)
  {
    hide At, Put, Inside;
    if n > 0 {
      StampElsewhere(g, dots, n - 1, c);
      assert dots[n - 1].cell != c;
    }
  }

  /** A dot that no later dot touches keeps its colour. */
  lemma {:induction false} StampAt(g: Grid, dots: seq<Dot>, n: nat, i: nat)
    requires Square(g, |g|) && DotsInside(|g|, dots) && i < n <= |dots|
    requires forall j :: i < j < n ==> dots[j].cell != dots[i].cell
    ensures At(Stamp(g, dots, n), dots[i].cell) == dots[i].dark
  {
    hide At, Put, Inside;
    if i < n - 1 {
      StampAt(g, dots, n - 1, i);
    }
  }

  /** Stamping dots that are all dark marks exactly the covered cells. */
  lemma {:induction false} StampMarks(g: Grid, dots: seq<Dot>, n: nat, c: Cell)
    requires Square(g, |g|) && DotsInside(|g|, dots) && Inside(|g|, c) && n <= |dots|
    requires forall i :: 0 <= i < |dots| ==> dots[i].dark
    ensures At(Stamp(g, dots, n), c) == ((exists i :: 0 <= i < n && dots[i].cell == c) || At(g, c))
  {
    hide At, Put, Inside;
    if n > 0 {
      StampMarks(g, dots, n - 1, c);
    }
  }

  function Darkened(dots: seq<Dot>): (r: seq<Dot>)
    ensures |r| == |dots|
  {
    seq(|dots|, i requires 0 <= i < |dots| => Dot(dots[i].cell, true))
  }

  /** Both copies of the format word and the dark module. */
  function FormatDots(size: int, bits: nat): (r: seq<Dot>)
    ensures |r| == 31
  {
    seq(31, i requires 0 <= i < 31 =>
      if i < 15 then Dot(FormatCell(i), Bit(bits, i))
      else if i < 30 then Dot(FormatCell2(size, i - 15), Bit(bits, i - 15))
      else Dot(Cell(8, size - 8), true))
  }

  /** Both copies of the version word, bit by bit. */
  function VersionDots(size: int, bits: nat): (r: seq<Dot>)
    ensures |r| == 36
  {
    seq(36, i requires 0 <= i < 36 =>
      var a, b := size - 11 + i / 2 % 3, i / 2 / 3;
      Dot(if i % 2 == 0 then Cell(a, b) else Cell(b, a), Bit(bits, i / 2)))
  }

  lemma FormatDotsInside(size: int, bits: nat)
    requires size >= 21
    ensures DotsInside(size, FormatDots(size, bits))
  {
    hide Bit;
  }

  lemma VersionDotsAt(size: int, bits: nat, i: nat)
    requires i < 18
    ensures var a, b := size - 11 + i % 3, i / 3;
            VersionDots(size, bits)[2 * i] == Dot(Cell(a, b), Bit(bits, i))
            && VersionDots(size, bits)[2 * i + 1] == Dot(Cell(b, a), Bit(bits, i))
  {
    hide Bit;
    assert (2 * i) / 2 == i && (2 * i + 1) / 2 == i && (2 * i) % 2 == 0 && (2 * i + 1) % 2 == 1;
  }

  lemma VersionDotsInside(size: int, bits: nat)
    requires size >= 21
    ensures DotsInside(size, VersionDots(size, bits))
  {
    hide Bit;
  }

  function DotCell(size: int, i: nat): Cell {
    if i < 15 then FormatCell(i) else if i < 30 then FormatCell2(size, i - 15) else Cell(8, size - 8)
  }

  lemma FormatDotAt(size: int, bits: nat, i: nat)
    requires i < 31
    ensures FormatDots(size, bits)[i].cell == DotCell(size, i)
  {
    hide Bit, FormatCell, FormatCell2;
  }

  lemma DotCellsDistinct(size: int, i: nat, j: nat)
    requires size >= 21 && i < j < 31
    ensures DotCell(size, i) != DotCell(size, j)
  {
  }

  /** The format dots lie on the reserved modules, no two on the same one. */
  lemma FormatDotsDistinct(size: int, bits: nat, i: nat, j: nat)
    requires size >= 21 && i < j < 31
    ensures FormatDots(size, bits)[i].cell != FormatDots(size, bits)[j].cell
  {
    hide FormatDots, DotCell;
    FormatDotAt(size, bits, i);
    FormatDotAt(size, bits, j);
    DotCellsDistinct(size, i, j);
  }

  lemma FormatDotsCover(size: int, bits: nat, c: Cell)
    requires size >= 21
    ensures Covers(FormatDots(size, bits), c) <==> InFormat(size, c)
  {
    hide Bit;
    var dots := FormatDots(size, bits);
    if InFormat(size, c) {
      if c.x == 8 {
        if c.y <= 5 {
          assert dots[c.y].cell == c;
        } else if c.y <= 8 {
          assert dots[c.y - 1].cell == c;
        } else if c.y == size - 8 {
          assert dots[30].cell == c;
        } else {
          var i := c.y - size + 30;
          assert dots[i].cell == FormatCell2(size, i - 15);
        }
      } else if c.x == 7 {
        assert dots[8].cell == c;
      } else if c.x <= 5 {
        assert dots[14 - c.x].cell == c;
      } else {
        var i := 14 + size - c.x;
        assert dots[i].cell == FormatCell2(size, i - 15);
      }
    }
  }

  lemma VersionDotsCover(version: Version, bits: nat, c: Cell)
    requires version >= 7
    ensures Covers(VersionDots(Size(version), bits), c) <==> InVersion(version, c)
  {
    hide Bit;
    var size := Size(version);
    var dots := VersionDots(size, bits);
    if InVersion(version, c) {
      if c.y <= 5 {
        var i := 2 * (3 * c.y + c.x - (size - 11));
        assert i / 2 % 3 == c.x - (size - 11) && i / 2 / 3 == c.y;
        assert dots[i].cell == c;
      } else {
        var i := 2 * (3 * c.x + c.y - (size - 11)) + 1;
        assert i / 2 % 3 == c.y - (size - 11) && i / 2 / 3 == c.x;
        assert dots[i].cell == c;
      }
    }
    forall i | 0 <= i < 36 && dots[i].cell == c ensures InVersion(version, c) {
    }
  }

  lemma DarkenedCovers(dots: seq<Dot>, c: Cell)
    ensures (exists i :: 0 <= i < |dots| && Darkened(dots)[i].cell == c) <==> Covers(dots, c)
  {
    if Covers(dots, c) {
      var i :| 0 <= i < |dots| && dots[i].cell == c;
      assert Darkened(dots)[i].cell == c;
    }
  }

  /** Drawing a word marks the modules it covers. */
  lemma MarkedBy(f: Grid, dots: seq<Dot>, c: Cell)
    requires Square(f, |f|) && DotsInside(|f|, dots) && Inside(|f|, c)
    ensures At(Stamp(f, Darkened(dots), |dots|), c) == (Covers(dots, c) || At(f, c))
  {
    hide At, Inside, Stamp;
    StampMarks(f, Darkened(dots), |dots|, c);
    DarkenedCovers(dots, c);
  }

  // ---- alignment squares drawn so far ----------------------------------------------------

  ghost predicate AlignedBefore(version: Version, i: int, j: int, c: Cell) {
    var pos := AlignmentPositions(version);
    exists a, b :: 0 <= a < |pos| && 0 <= b < |pos| && (a < i || (a == i && b < j))
      && !Skipped(Size(version), pos[a], pos[b]) && InSquare(pos[a], pos[b], c)
  }

  lemma AlignedAll(version: Version, c: Cell)
    ensures AlignedBefore(version, |AlignmentPositions(version)|, 0, c) <==> InAlignment(version, c)
  {
    hide AlignmentPositions, InSquare, Skipped;
    var pos := AlignmentPositions(version);
    if InAlignment(version, c) {
      var px, py :| px in pos && py in pos && !Skipped(Size(version), px, py) && InSquare(px, py, c);
      var a :| 0 <= a < |pos| && pos[a] == px;
      var b :| 0 <= b < |pos| && pos[b] == py;
      assert !Skipped(Size(version), pos[a], pos[b]) && InSquare(pos[a], pos[b], c);
    }
  }

  lemma AlignedStep(version: Version, i: nat, j: nat, c: Cell)
    requires i < |AlignmentPositions(version)| && j < |AlignmentPositions(version)|
    ensures var pos := AlignmentPositions(version);
            AlignedBefore(version, i, j + 1, c) ==
            (AlignedBefore(version, i, j, c)
             || (!Skipped(Size(version), pos[i], pos[j]) && InSquare(pos[i], pos[j], c)))
  {
    hide AlignmentPositions, InSquare, Skipped;
  }

  lemma AlignedRow(version: Version, i: nat, c: Cell)
    requires i < |AlignmentPositions(version)|
    ensures AlignedBefore(version, i, |AlignmentPositions(version)|, c) <==> AlignedBefore(version, i + 1, 0, c)
  {
    hide AlignmentPositions, InSquare, Skipped;
  }

  /** Some square drawn before covers the module with a dark ring. */
  ghost predicate AlignedDark(version: Version, i: int, j: int, c: Cell) {
    var pos := AlignmentPositions(version);
    exists a, b :: 0 <= a < |pos| && 0 <= b < |pos| && (a < i || (a == i && b < j))
      && !Skipped(Size(version), pos[a], pos[b]) && InSquare(pos[a], pos[b], c) && Ring(pos[a], pos[b], c) != 1
  }

  lemma AlignedDarkStep(version: Version, i: nat, j: nat, c: Cell)
    requires i < |AlignmentPositions(version)| && j < |AlignmentPositions(version)|
    ensures var pos := AlignmentPositions(version);
            AlignedDark(version, i, j + 1, c) ==
            (AlignedDark(version, i, j, c)
             || (!Skipped(Size(version), pos[i], pos[j]) && InSquare(pos[i], pos[j], c) && Ring(pos[i], pos[j], c) != 1))
  {
    hide AlignmentPositions, InSquare, Skipped, Ring;
  }

  lemma AlignedDarkRow(version: Version, i: nat, c: Cell)
    requires i < |AlignmentPositions(version)|
    ensures AlignedDark(version, i, |AlignmentPositions(version)|, c) <==> AlignedDark(version, i + 1, 0, c)
  {
    hide AlignmentPositions, InSquare, Skipped, Ring;
  }

  /** No two squares meet. */
  lemma AlignedOnce(version: Version, i: nat, j: nat, c: Cell)
    requires i < |AlignmentPositions(version)| && j < |AlignmentPositions(version)|
    requires InSquare(AlignmentPositions(version)[i], AlignmentPositions(version)[j], c)
    ensures !AlignedBefore(version, i, j, c) && !AlignedDark(version, i, j, c)
  {
    hide AlignmentPositions, Skipped, Ring;
    var pos := AlignmentPositions(version);
    forall a, b | 0 <= a < |pos| && 0 <= b < |pos| && (a < i || (a == i && b < j)) ensures !InSquare(pos[a], pos[b], c) {
      if a != i {
        CentresApart(version, a, i);
      } else {
        CentresApart(version, b, j);
      }
    }
  }

  /** The colour of a module of an alignment pattern. */
  ghost predicate AlignmentDark(version: Version, c: Cell) {
    AlignedDark(version, |AlignmentPositions(version)|, 0, c)
  }

  // ---- the colours of function modules --------------------------------------------------------

  predicate RingDark(cx: int, cy: int, c: Cell) {
    Ring(cx, cy, c) != 2 && Ring(cx, cy, c) != 4
  }

  predicate FinderDark(size: int, c: Cell) {
    if InFinder(size, 3, size - 4, c) then RingDark(3, size - 4, c)
    else if InFinder(size, size - 4, 3, c) then RingDark(size - 4, 3, c)
    else RingDark(3, 3, c)
  }

  /** Some dot paints the module dark. */
  ghost predicate DotDark(dots: seq<Dot>, c: Cell) {
    exists i :: 0 <= i < |dots| && dots[i] == Dot(c, true)
  }

  /** Every function module of a symbol with this format word. */
  ghost predicate PatternDark(version: Version, word: nat, c: Cell) {
    var size := Size(version);
    if InFormat(size, c) then DotDark(FormatDots(size, word), c)
    else if InVersion(version, c) then DotDark(VersionDots(size, VersionBits(version)), c)
    else if InAlignment(version, c) then AlignmentDark(version, c)
    else if InTiming(size, c) then (c.x + c.y) % 2 == 0
    else FinderDark(size, c)
  }

  ghost predicate DistinctDots(dots: seq<Dot>) {
    forall i, j :: 0 <= i < j < |dots| ==> dots[i].cell != dots[j].cell
  }

  /** Dots on distinct modules give each its own colour. */
  lemma StampColours(g: Grid, dots: seq<Dot>, c: Cell)
    requires Square(g, |g|) && DotsInside(|g|, dots) && Inside(|g|, c) && DistinctDots(dots)
    ensures At(Stamp(g, dots, |dots|), c) == if Covers(dots, c) then DotDark(dots, c) else At(g, c)
  {
    hide At, Stamp, Inside;
    if Covers(dots, c) {
      var i :| 0 <= i < |dots| && dots[i].cell == c;
      StampAt(g, dots, |dots|, i);
      if dots[i].dark {
        assert dots[i] == Dot(c, true);
      }
    } else {
      StampElsewhere(g, dots, |dots|, c);
    }
  }

  lemma FormatDistinct(size: int, bits: nat)
    requires size >= 21
    ensures DistinctDots(FormatDots(size, bits))
  {
    hide FormatDots;
    forall i, j | 0 <= i < j < 31 ensures FormatDots(size, bits)[i].cell != FormatDots(size, bits)[j].cell {
      FormatDotsDistinct(size, bits, i, j);
    }
  }

  lemma VersionDistinct(size: int, bits: nat)
    requires size >= 21
    ensures DistinctDots(VersionDots(size, bits))
  {
    hide Bit;
    var dots := VersionDots(size, bits);
    forall i, j | 0 <= i < j < 36 ensures dots[i].cell != dots[j].cell {
      assert i == 2 * (i / 2) + i % 2 && j == 2 * (j / 2) + j % 2;
      assert i / 2 == 3 * (i / 2 / 3) + i / 2 % 3 && j / 2 == 3 * (j / 2 / 3) + j / 2 % 3;
    }
  }

  lemma FormatVersionApart(version: Version, c: Cell)
    ensures !(InFormat(Size(version), c) && InVersion(version, c))
  {
  }

  // ---- data placement ----------------------------------------------------------------------

  /** Bit k of the codewords, light after the last one. */
  predicate DataBit(cw: seq<Byte>, k: nat) {
    k < 8 * |cw| && QrData.StreamBit(cw, k)
  }

  /** The free modules among `cells` carry the masked data bits, all others are as in `g0`. */
  ghost predicate Placed(version: Version, g0: Grid, g: Grid, cells: seq<Cell>, cw: seq<Byte>, mask: nat)
    requires Square(g0, Size(version)) && Square(g, Size(version))
  {
    var free := Free(version, cells);
    && (forall k :: 0 <= k < |free| ==>
          Inside(Size(version), free[k]) && At(g, free[k]) == (DataBit(cw, k) != Masked(mask, free[k])))
    && (forall d :: Inside(Size(version), d) && d !in free ==> At(g, d) == At(g0, d))
  }

  lemma PlaceFree(version: Version, g0: Grid, g: Grid, cells: seq<Cell>, cw: seq<Byte>, mask: nat, c: Cell)
    requires Square(g0, Size(version)) && Square(g, Size(version)) && Inside(Size(version), c)
    requires Placed(version, g0, g, cells, cw, mask)
    requires c !in cells && !IsFunction(version, c)
    ensures Placed(version, g0,
                   Put(g, c, DataBit(cw, |Free(version, cells)|) != Masked(mask, c)),
                   cells + [c], cw, mask)
  {
    hide At, Put, Square, IsFunction, MaskFn, DataBit, Free;
    FreeStep(version, cells, c);
    FreeMember(version, cells, c);
  }

  lemma PlaceFunction(version: Version, g0: Grid, g: Grid, cells: seq<Cell>, cw: seq<Byte>, mask: nat, c: Cell)
    requires Square(g0, Size(version)) && Square(g, Size(version))
    requires Placed(version, g0, g, cells, cw, mask)
    requires IsFunction(version, c)
    ensures Placed(version, g0, g, cells + [c], cw, mask)
  {
    hide IsFunction, At;
    FreeStep(version, cells, c);
  }

  // ---- the builder -----------------------------------------------------------------

  class MatrixBuilder {
    const version: Version
    const size: nat
    var modules: Grid
    var functions: Grid

    ghost predicate Valid()
      reads this
    {
      size == Size(version) && Square(modules, size) && Square(functions, size)
    }

    /** The builder holds `m` and `f` with the first n dots drawn on them. */
    ghost predicate Extended(m: Grid, f: Grid, dots: seq<Dot>, n: nat)
      reads this
      requires Square(m, size) && Square(f, size)
      requires DotsInside(size, dots) && n <= |dots|
    {
      modules == Stamp(m, dots, n) && functions == Stamp(f, Darkened(dots), n)
    }

    method SetFunction(c: Cell, dark: bool)
      requires Valid() && Inside(size, c)
      modifies this
      ensures Valid()
      ensures modules == Put(old(modules), c, dark)
      ensures functions == Put(old(functions), c, true)
    {
      modules := Put(modules, c, dark);
      functions := Put(functions, c, true);
    }

    method DrawFinder(cx: int, cy: int)
      requires Valid()
      modifies this
      ensures Valid()
      ensures forall d :: Inside(size, d) ==>
                At(functions, d) == (InFinder(size, cx, cy, d) || At(old(functions), d))
      ensures forall d :: Inside(size, d) ==>
                At(modules, d) == if InFinder(size, cx, cy, d)
                                  then Ring(cx, cy, d) != 2 && Ring(cx, cy, d) != 4
                                  else At(old(modules), d)
    {
      hide At, Put, Square;
      for dy := -4 to 5
        invariant Valid()
        invariant forall d :: Inside(size, d) ==>
                    At(functions, d) == ((InFinder(size, cx, cy, d) && d.y < cy + dy) || At(old(functions), d))
        invariant forall d :: Inside(size, d) ==>
                    At(modules, d) == if InFinder(size, cx, cy, d) && d.y < cy + dy
                                      then Ring(cx, cy, d) != 2 && Ring(cx, cy, d) != 4
                                      else At(old(modules), d)
      {
        for dx := -4 to 5
          invariant Valid()
          invariant forall d :: Inside(size, d) ==>
                      At(functions, d) == ((InFinder(size, cx, cy, d)
                                            && (d.y < cy + dy || (d.y == cy + dy && d.x < cx + dx)))
                                           || At(old(functions), d))
          invariant forall d :: Inside(size, d) ==>
                      At(modules, d) == if InFinder(size, cx, cy, d)
                                           && (d.y < cy + dy || (d.y == cy + dy && d.x < cx + dx))
                                        then Ring(cx, cy, d) != 2 && Ring(cx, cy, d) != 4
                                        else At(old(modules), d)
        {
          var c := Cell(cx + dx, cy + dy);
          if Inside(size, c) {
            var dist := Max(Abs(dx), Abs(dy));
            SetFunction(c, dist != 2 && dist != 4);
          }
        }
      }
    }

    method DrawAlignment(cx: int, cy: int)
      requires Valid() && 2 <= cx < size - 2 && 2 <= cy < size - 2
      modifies this
      ensures Valid()
      ensures forall d :: Inside(size, d) ==>
                At(functions, d) == (InSquare(cx, cy, d) || At(old(functions), d))
      ensures forall d :: Inside(size, d) ==>
                At(modules, d) == if InSquare(cx, cy, d) then Ring(cx, cy, d) != 1
                                  else At(old(modules), d)
    {
      hide At, Put, Square;
      for dy := -2 to 3
        invariant Valid()
        invariant forall d :: Inside(size, d) ==>
                    At(functions, d) == ((InSquare(cx, cy, d) && d.y < cy + dy) || At(old(functions), d))
        invariant forall d :: Inside(size, d) ==>
                    At(modules, d) == if InSquare(cx, cy, d) && d.y < cy + dy then Ring(cx, cy, d) != 1
                                      else At(old(modules), d)
      {
        for dx := -2 to 3
          invariant Valid()
          invariant forall d :: Inside(size, d) ==>
                      At(functions, d) == ((InSquare(cx, cy, d)
                                            && (d.y < cy + dy || (d.y == cy + dy && d.x < cx + dx)))
                                           || At(old(functions), d))
          invariant forall d :: Inside(size, d) ==>
                      At(modules, d) == if InSquare(cx, cy, d)
                                           && (d.y < cy + dy || (d.y == cy + dy && d.x < cx + dx))
                                        then Ring(cx, cy, d) != 1
                                        else At(old(modules), d)
        {
          SetFunction(Cell(cx + dx, cy + dy), Max(Abs(dx), Abs(dy)) != 1);
        }
      }
    }

    method DrawTiming()
      requires Valid()
      modifies this
      ensures Valid()
      ensures forall d :: Inside(size, d) ==>
                At(functions, d) == (InTiming(size, d) || At(old(functions), d))
      ensures forall d :: Inside(size, d) ==>
                At(modules, d) == if InTiming(size, d) then (d.x + d.y) % 2 == 0
                                  else At(old(modules), d)
    {
      hide At, Put, Square;
      for i := 8 to size - 8
        invariant Valid()
        invariant forall d :: Inside(size, d) ==>
                    At(functions, d) == ((InTiming(size, d) && d.x < Max(i, 7) && d.y < Max(i, 7))
                                         || At(old(functions), d))
        invariant forall d :: Inside(size, d) ==>
                    At(modules, d) == if InTiming(size, d) && d.x < Max(i, 7) && d.y < Max(i, 7)
                                      then (d.x + d.y) % 2 == 0
                                      else At(old(modules), d)
      {
        SetFunction(Cell(i, 6), i % 2 == 0);
        SetFunction(Cell(6, i), i % 2 == 0);
      }
    }

    /** One module of a word; the drawing so far is the first n dots. */
    method DrawDot(ghost m: Grid, ghost f: Grid, ghost dots: seq<Dot>, c: Cell, dark: bool, ghost n: nat)
      requires Valid() && Square(m, size) && Square(f, size) && DotsInside(size, dots)
      requires n < |dots| && dots[n] == Dot(c, dark)
      requires Extended(m, f, dots, n)
      modifies this
      ensures Valid() && Extended(m, f, dots, n + 1)
    {
      hide Put;
      SetFunction(c, dark);
    }

    method DrawFormat(level: Level, mask: int)
      requires Valid() && -8 <= mask < 8 && DotsInside(size, FormatDots(size, FormatBits(level, mask)))
      modifies this
      ensures Valid()
      ensures Extended(old(modules), old(functions), FormatDots(size, FormatBits(level, mask)), 31)
    {
      hide FormatBits, Square, DotsInside, Bit;
      var bits := ComputeFormatBits(level, mask);
      ghost var m, f, dots := modules, functions, FormatDots(size, bits);
      for i := 0 to 6
        invariant Valid() && Extended(m, f, dots, i)
      {
        DrawDot(m, f, dots, Cell(8, i), Bit(bits, i), i);
      }
      DrawDot(m, f, dots, Cell(8, 7), Bit(bits, 6), 6);
      DrawDot(m, f, dots, Cell(8, 8), Bit(bits, 7), 7);
      DrawDot(m, f, dots, Cell(7, 8), Bit(bits, 8), 8);
      for i := 9 to 15
        invariant Valid() && Extended(m, f, dots, i)
      {
        DrawDot(m, f, dots, Cell(14 - i, 8), Bit(bits, i), i);
      }
      for i := 0 to 8
        invariant Valid() && Extended(m, f, dots, 15 + i)
      {
        assert dots[15 + i] == Dot(FormatCell2(size, i), Bit(bits, i));
        DrawDot(m, f, dots, Cell(size - 1 - i, 8), Bit(bits, i), 15 + i);
      }
      for i := 8 to 15
        invariant Valid() && Extended(m, f, dots, 15 + i)
      {
        assert dots[15 + i] == Dot(FormatCell2(size, i), Bit(bits, i));
        DrawDot(m, f, dots, Cell(8, size - 15 + i), Bit(bits, i), 15 + i);
      }
      DrawDot(m, f, dots, Cell(8, size - 8), true, 30);
    }

    method DrawVersion()
      requires Valid() && DotsInside(size, VersionDots(size, VersionBits(version)))
      modifies this
      ensures Valid()
      ensures Extended(old(modules), old(functions), VersionDots(size, VersionBits(version)), 36)
    {
      hide VersionBits, Square, DotsInside, Bit, VersionDots;
      var bits := ComputeVersionBits(version);
      ghost var m, f, dots := modules, functions, VersionDots(size, bits);
      for i := 0 to 18
        invariant Valid() && Extended(m, f, dots, 2 * i)
      {
        VersionDotsAt(size, bits, i);
        var bit := Bit(bits, i);
        var a, b := size - 11 + i % 3, i / 3;
        DrawDot(m, f, dots, Cell(a, b), bit, 2 * i);
        DrawDot(m, f, dots, Cell(b, a), bit, 2 * i + 1);
      }
    }

    method DrawAlignments()
      requires Valid()
      modifies this
      ensures Valid()
      ensures forall d :: Inside(size, d) ==>
                At(functions, d) == (InAlignment(version, d) || At(old(functions), d))
      ensures forall d :: Inside(size, d) ==>
                At(modules, d) == if InAlignment(version, d) then AlignmentDark(version, d) else At(old(modules), d)
    {
      hide At, Put, Square, InAlignment, AlignedBefore, AlignedDark, InSquare, Skipped, AlignmentPositions, Ring;
      var positions := AlignmentPositions(version);
      AlignmentInside(version);
      NothingAligned(version);
      for i := 0 to |positions|
        invariant Valid()
        invariant forall d :: Inside(size, d) ==>
                    At(functions, d) == (AlignedBefore(version, i, 0, d) || At(old(functions), d))
        invariant forall d :: Inside(size, d) ==>
                    At(modules, d) == if AlignedBefore(version, i, 0, d) then AlignedDark(version, i, 0, d)
                                      else At(old(modules), d)
      {
        for j := 0 to |positions|
          invariant Valid()
          invariant forall d :: Inside(size, d) ==>
                      At(functions, d) == (AlignedBefore(version, i, j, d) || At(old(functions), d))
          invariant forall d :: Inside(size, d) ==>
                      At(modules, d) == if AlignedBefore(version, i, j, d) then AlignedDark(version, i, j, d)
                                        else At(old(modules), d)
        {
          forall d
            ensures AlignedBefore(version, i, j + 1, d)
                    <==> AlignedBefore(version, i, j, d)
                         || (!Skipped(size, positions[i], positions[j])
                             && InSquare(positions[i], positions[j], d))
            ensures AlignedDark(version, i, j + 1, d)
                    <==> AlignedDark(version, i, j, d)
                         || (!Skipped(size, positions[i], positions[j])
                             && InSquare(positions[i], positions[j], d) && Ring(positions[i], positions[j], d) != 1)
            ensures InSquare(positions[i], positions[j], d) ==>
                      !AlignedBefore(version, i, j, d) && !AlignedDark(version, i, j, d)
          {
            AlignedStep(version, i, j, d);
            AlignedDarkStep(version, i, j, d);
            if InSquare(positions[i], positions[j], d) {
              AlignedOnce(version, i, j, d);
            }
          }
          assert positions[i] in positions && positions[j] in positions;
          if !Skipped(size, positions[i], positions[j]) {
            DrawAlignment(positions[i], positions[j]);
          }
        }
        forall d
          ensures AlignedBefore(version, i, |positions|, d) == AlignedBefore(version, i + 1, 0, d)
          ensures AlignedDark(version, i, |positions|, d) == AlignedDark(version, i + 1, 0, d)
        {
          AlignedRow(version, i, d);
          AlignedDarkRow(version, i, d);
        }
      }
      forall d ensures AlignedBefore(version, |positions|, 0, d) == InAlignment(version, d) {
        AlignedAll(version, d);
      }
    }

    method DrawFinders()
      requires Valid()
      modifies this
      ensures Valid()
      ensures forall d :: Inside(size, d) ==> At(functions, d) == (InFinders(size, d) || At(old(functions), d))
      ensures forall d :: Inside(size, d) ==>
                At(modules, d) == if InFinders(size, d) then FinderDark(size, d) else At(old(modules), d)
    {
      hide At, Square, InFinder, Ring;
      DrawFinder(3, 3);
      DrawFinder(size - 4, 3);
      DrawFinder(3, size - 4);
    }

    /** `_draw_format`, in terms of areas and colours. */
    method DrawFormatWord(level: Level, mask: int)
      requires Valid() && -8 <= mask < 8
      modifies this
      ensures Valid()
      ensures forall d :: Inside(size, d) ==> At(functions, d) == (InFormat(size, d) || At(old(functions), d))
      ensures forall d :: Inside(size, d) ==>
                At(modules, d) == if InFormat(size, d) then DotDark(FormatDots(size, FormatBits(level, mask)), d)
                                  else At(old(modules), d)
    {
      hide At, Square, InFormat, FormatBits, FormatDots, DotsInside, Stamp, Covers, DotDark;
      ghost var m, f, dots := modules, functions, FormatDots(size, FormatBits(level, mask));
      FormatDotsInside(size, FormatBits(level, mask));
      FormatDistinct(size, FormatBits(level, mask));
      DrawFormat(level, mask);
      forall d | Inside(size, d)
        ensures At(functions, d) == (InFormat(size, d) || At(f, d))
        ensures At(modules, d) == if InFormat(size, d) then DotDark(dots, d) else At(m, d)
      {
        MarkedBy(f, dots, d);
        StampColours(m, dots, d);
        FormatDotsCover(size, FormatBits(level, mask), d);
      }
    }

    method DrawVersionWord()
      requires Valid() && version >= 7
      modifies this
      ensures Valid()
      ensures forall d :: Inside(size, d) ==> At(functions, d) == (InVersion(version, d) || At(old(functions), d))
      ensures forall d :: Inside(size, d) ==>
                At(modules, d) == if InVersion(version, d) then DotDark(VersionDots(size, VersionBits(version)), d)
                                  else At(old(modules), d)
    {
      hide At, Square, InVersion, VersionBits, VersionDots, DotsInside, Stamp, Covers, DotDark;
      ghost var m, f, dots := modules, functions, VersionDots(size, VersionBits(version));
      VersionDotsInside(size, VersionBits(version));
      VersionDistinct(size, VersionBits(version));
      DrawVersion();
      forall d | Inside(size, d)
        ensures At(functions, d) == (InVersion(version, d) || At(f, d))
        ensures At(modules, d) == if InVersion(version, d) then DotDark(dots, d) else At(m, d)
      {
        MarkedBy(f, dots, d);
        StampColours(m, dots, d);
        VersionDotsCover(version, VersionBits(version), d);
      }
    }

    /** Exactly the function modules are reserved, each in its colour. */
    method DrawFunctionPatterns()
      requires Valid()
      requires forall d :: Inside(size, d) ==> !At(functions, d)
      modifies this
      ensures Valid()
      ensures forall d :: Inside(size, d) ==> At(functions, d) == IsFunction(version, d)
      ensures forall d :: Inside(size, d) ==>
                At(modules, d) == if IsFunction(version, d) then PatternDark(version, FormatBits(Low, 0), d)
                                  else At(old(modules), d)
    {
      hide At, Square, InFinders, InTiming, InAlignment, InFormat, InVersion, FormatBits, VersionBits, FormatDots,
           VersionDots, DotDark, FinderDark, AlignmentDark;
      DrawFinders();
      DrawTiming();
      DrawAlignments();
      DrawFormatWord(Low, 0);
      forall d ensures !(InFormat(size, d) && InVersion(version, d)) {
        FormatVersionApart(version, d);
      }
      if version >= 7 {
        DrawVersionWord();
      } else {
        NoVersion(version);
      }
    }

    /** Writes one step of the walk; returns the next bit index. */
    method PlaceStep(codewords: seq<Byte>, mask: nat, c: Cell, bitIndex: nat,
                     ghost g0: Grid, ghost walked: seq<Cell>) returns (next: nat)
      requires Valid() && Inside(size, c) && mask < 8 && Square(g0, size)
      requires forall d :: Inside(size, d) ==> At(functions, d) == IsFunction(version, d)
      requires Placed(version, g0, modules, walked, codewords, mask)
      requires c !in walked
      requires bitIndex == BitsUsed(codewords, |Free(version, walked)|)
      modifies this`modules
      ensures Valid()
      ensures Placed(version, g0, modules, walked + [c], codewords, mask)
      ensures next == BitsUsed(codewords, |Free(version, walked + [c])|)
    {
      hide At, Put, Square, IsFunction, Placed, MaskFn, Free, QrData.StreamBit;
      next := bitIndex;
      FreeStep(version, walked, c);
      AtIs(functions, c);
      if !functions[c.y][c.x] {
        var dark := false;
        if bitIndex < 8 * |codewords| {
          dark := QrData.StreamBit(codewords, bitIndex);
          next := bitIndex + 1;
        }
        if MaskFn(mask, c.y, c.x) {
          dark := !dark;
        }
        PlaceFree(version, g0, modules, walked, codewords, mask, c);
        modules := Put(modules, c, dark);
      } else {
        PlaceFunction(version, g0, modules, walked, codewords, mask, c);
      }
    }

    method PlaceColumns(codewords: seq<Byte>, mask: nat, ghost p: nat, right: int, bitIndex: nat, ghost g0: Grid)
      returns (next: nat)
      requires Valid() && mask < 8 && Square(g0, size) && p < PairCount(size) && right == RightColumn(size, p)
      requires forall d :: Inside(size, d) ==> At(functions, d) == IsFunction(version, d)
      requires Placed(version, g0, modules, Columns(size, p), codewords, mask)
      requires bitIndex == BitsUsed(codewords, |Free(version, Columns(size, p))|)
      modifies this`modules
      ensures Valid()
      ensures Placed(version, g0, modules, Columns(size, p + 1), codewords, mask)
      ensures next == BitsUsed(codewords, |Free(version, Columns(size, p + 1))|)
    {
      hide At, Put, Square, IsFunction, Placed, Free, BitsUsed, Walked, PairCell;
      next := bitIndex;
      WalkedStart(size, p);
      for vert := 0 to size
        invariant Valid()
        invariant Placed(version, g0, modules, Walked(size, p, 2 * vert), codewords, mask)
        invariant next == BitsUsed(codewords, |Free(version, Walked(size, p, 2 * vert))|)
      {
        for j := 0 to 2
          invariant Valid()
          invariant Placed(version, g0, modules, Walked(size, p, 2 * vert + j), codewords, mask)
          invariant next == BitsUsed(codewords, |Free(version, Walked(size, p, 2 * vert + j))|)
        {
          ghost var t := 2 * vert + j;
          var x := right - j;
          var upward := (right + 1) % 4 < 2;
          var y := if upward then size - 1 - vert else vert;
          PairCellIs(size, p, vert, j);
          PairCellInside(size, p, t);
          StepIsNew(size, p, t);
          WalkedStep(size, p, t);
          next := PlaceStep(codewords, mask, Cell(x, y), next, g0, Walked(size, p, t));
        }
      }
      WalkedEnd(size, p);
    }

    /** The free modules receive the codeword bits in zigzag order, under the mask; nothing else changes. */
    method DrawData(codewords: seq<Byte>, mask: nat)
      requires Valid() && mask < 8
      requires forall d :: Inside(size, d) ==> At(functions, d) == IsFunction(version, d)
      modifies this`modules
      ensures Valid()
      ensures Placed(version, old(modules), modules, Zigzag(size), codewords, mask)
    {
      hide At, Put, Square, IsFunction, Placed, Columns;
      var bitIndex := 0;
      var right := size - 1;
      ghost var p := 0;
      ghost var g0 := modules;
      NothingPlaced(version, g0, codewords, mask);
      while right >= 1
        invariant Valid() && 0 <= p <= PairCount(size)
        invariant right == (if size - 1 - 2 * p <= 4 then size - 2 - 2 * p else size - 1 - 2 * p)
        invariant Placed(version, g0, modules, Columns(size, p), codewords, mask)
        invariant bitIndex == BitsUsed(codewords, |Free(version, Columns(size, p))|)
      {
        if right == 6 {
          right := 5;
        }
        bitIndex := PlaceColumns(codewords, mask, p, right, bitIndex, g0);
        right := right - 2;
        p := p + 1;
      }
    }

    constructor (version: Version)
      ensures Valid() && this.version == version
      ensures forall d :: Inside(size, d) ==> At(functions, d) == IsFunction(version, d)
      ensures forall d :: Inside(size, d) ==>
                At(modules, d) == (IsFunction(version, d) && PatternDark(version, FormatBits(Low, 0), d))
    {
      hide At, Square, IsFunction, PatternDark, FormatBits;
      this.version := version;
      this.size := Size(version);
      this.modules := Blank(Size(version));
      this.functions := Blank(Size(version));
      new;
      DrawFunctionPatterns();
    }
  }

  lemma NothingAligned(version: Version)
    ensures forall d :: !AlignedBefore(version, 0, 0, d)
  {
  }

  lemma NoVersion(version: Version)
    requires version < 7
    ensures forall d :: !InVersion(version, d)
  {
  }

  /** How many bits the walk has taken after meeting n free modules. */
  function BitsUsed(cw: seq<Byte>, n: nat): nat {
    if n < 8 * |cw| then n else 8 * |cw|
  }

  lemma AtIs(g: Grid, c: Cell)
    requires Square(g, |g|) && Inside(|g|, c)
    ensures |g[c.y]| == |g| && At(g, c) == g[c.y][c.x]
  {
  }

  lemma WalkedStart(size: nat, p: nat)
    ensures Walked(size, p, 0) == Columns(size, p)
  {
  }

  lemma WalkedEnd(size: nat, p: nat)
    ensures Walked(size, p, 2 * size) == Columns(size, p + 1)
  {
  }

  lemma PairCellIs(size: nat, p: nat, vert: nat, j: nat)
    requires j < 2
    ensures var right := RightColumn(size, p);
            PairCell(size, p, 2 * vert + j)
            == Cell(right - j, if (right + 1) % 4 < 2 then size - 1 - vert else vert)
  {
  }

  lemma NothingPlaced(version: Version, g: Grid, cw: seq<Byte>, mask: nat)
    requires Square(g, Size(version))
    ensures Placed(version, g, g, Columns(Size(version), 0), cw, mask)
    ensures Free(version, Columns(Size(version), 0)) == []
  {
  }
}
