/** The walk and the function patterns of a symbol as pictures: coordinates and colours written out. */
module QrPatterns {
  import opened Basics
  import opened Bits
  import opened QrTables
  import opened QrGeometry
  import opened QrMatrix
  import opened QrCode
  import QrCapacity
  import QrBch

  // ---- the walk -------------------------------------------------------------------

  lemma {:induction false} ColumnsAt(size: nat, q: nat, p: nat, t: nat)
    requires p < q && t < 2 * size
    ensures 2 * size * p + t < |Columns(size, q)|
    ensures Columns(size, q)[2 * size * p + t] == PairCell(size, p, t)
    decreases q
  {
    hide PairCell;
    QrCapacity.ColumnsLength(size, q - 1);
    QrCapacity.ColumnsLength(size, q);
    MulGrows(2 * size, p + 1, q);
    if p < q - 1 {
      ColumnsAt(size, q - 1, p, t);
    }
  }

  /** Where the walk stands at step t of column pair p. */
  function Stand(size: nat, p: nat, t: nat): (c: Cell)
    requires size >= 1 && p < PairCount(size) && t < 2 * size
    ensures c == PairCell(size, p, t)
  {
    hide Columns, PairCell;
    ColumnsAt(size, PairCount(size), p, t);
    Zigzag(size)[2 * size * p + t]
  }

  /** The walk starts in the bottom right corner. */
  lemma WalkStarts(version: Version)
    ensures var size := Size(version);
            Stand(size, 0, 0) == Cell(size - 1, size - 1)
  {
    hide Columns, Zigzag;
  }

  /** From the right module of a row to the left one, then to the next row, away from where the pair began. */
  lemma WalkWithinPair(version: Version, p: nat, t: nat)
    requires p < PairCount(Size(version)) && t + 1 < 2 * Size(version)
    ensures var size := Size(version);
            var c := Stand(size, p, t);
            Stand(size, p, t + 1)
            == if t % 2 == 0 then Cell(c.x - 1, c.y)
               else Cell(c.x + 1, c.y + (if Stand(size, p, 0).y == 0 then 1 else -1))
  {
    hide Columns, Zigzag;
  }

  /** Pairs are walked upwards and downwards in turn. */
  lemma PairDirection(version: Version, p: nat)
    requires p < PairCount(Size(version))
    ensures Upward(RightColumn(Size(version), p)) <==> p % 2 == 0
  {
    var q := p / 2;
    if p % 2 == 0 {
      assert p == 2 * q;
    } else {
      assert p == 2 * q + 1;
    }
  }

  lemma PairEnds(version: Version, p: nat)
    requires p < PairCount(Size(version))
    ensures var size := Size(version);
            var right := RightColumn(size, p);
            && Stand(size, p, 0) == Cell(right, if p % 2 == 0 then size - 1 else 0)
            && Stand(size, p, 2 * size - 1) == Cell(right - 1, if p % 2 == 0 then 0 else size - 1)
  {
    hide Columns, Zigzag, RightColumn, Upward;
    PairDirection(version, p);
    var n := 2 * Size(version) - 1;
    assert n % 2 == 1 && n / 2 == Size(version) - 1;
  }

  /** At the end of a pair it turns: the same row, the next column to the left, stepping over column 6. */
  lemma WalkTurns(version: Version, p: nat)
    requires p + 1 < PairCount(Size(version))
    ensures var size := Size(version);
            var c := Stand(size, p, 2 * size - 1);
            Stand(size, p + 1, 0) == Cell(if c.x == 7 then 5 else c.x - 1, c.y)
  {
    hide Columns, Zigzag, PairCell, Upward;
    PairEnds(version, p);
    PairEnds(version, p + 1);
    assert (p + 1) % 2 != p % 2;
    var r := Size(version) - 1 - 2 * p;
    assert r % 2 == 0;
  }

  /** Positions before n that the walk does not skip. */
  ghost function FreeBefore(version: Version, cells: seq<Cell>, n: nat): set<int>
    requires n <= |cells|
  {
    set i | 0 <= i < n && !IsFunction(version, cells[i])
  }

  lemma {:induction false} FreeRank(version: Version, cells: seq<Cell>, n: nat)
    requires n <= |cells|
    ensures |Free(version, cells[..n])| == |FreeBefore(version, cells, n)|
  {
    hide IsFunction;
    if n > 0 {
      FreeRank(version, cells, n - 1);
      assert cells[..n] == cells[..n - 1] + [cells[n - 1]];
      FreeStep(version, cells[..n - 1], cells[n - 1]);
      var b := FreeBefore(version, cells, n - 1);
      assert n - 1 !in b;
      assert FreeBefore(version, cells, n) == if IsFunction(version, cells[n - 1]) then b else b + {n - 1};
    }
  }

  lemma {:induction false} FreePrefix(version: Version, cells: seq<Cell>, n: nat)
    requires n <= |cells|
    ensures Free(version, cells[..n]) <= Free(version, cells)
    decreases |cells| - n
  {
    hide IsFunction;
    if n == |cells| {
      assert cells[..n] == cells;
    } else {
      FreePrefix(version, cells, n + 1);
      assert cells[..n + 1] == cells[..n] + [cells[n]];
      FreeStep(version, cells[..n], cells[n]);
    }
  }

  /** The module the walk meets at step n is the data module whose number is the count of data modules met before. */
  lemma DataOrder(version: Version, n: nat)
    requires n < |Zigzag(Size(version))| && !IsFunction(version, Zigzag(Size(version))[n])
    ensures var walk := Zigzag(Size(version));
            var k := |FreeBefore(version, walk, n)|;
            k < |DataCells(version)| && DataCells(version)[k] == walk[n]
  {
    hide IsFunction, Columns;
    var walk := Zigzag(Size(version));
    FreeRank(version, walk, n);
    FreePrefix(version, walk, n + 1);
    assert walk[..n + 1] == walk[..n] + [walk[n]];
    FreeStep(version, walk[..n], walk[n]);
  }

  // ---- where the function modules are -------------------------------------------------

  /** A corner block, row or column 6, a version block, or the square of an alignment centre outside the corners. */
  lemma FunctionModules(version: Version, c: Cell)
    requires Inside(Size(version), c)
    ensures var last := Size(version) - 1;
            IsFunction(version, c) <==>
            (c.x <= 8 && c.y <= 8) || (c.x >= last - 7 && c.y <= 8) || (c.x <= 8 && c.y >= last - 7)
            || c.x == 6 || c.y == 6
            || (version >= 7 && c.x >= last - 10 && c.y <= 5) || (version >= 7 && c.x <= 5 && c.y >= last - 10)
            || exists px, py :: px in AlignmentPositions(version) && py in AlignmentPositions(version)
                 && !(px == 6 && py == 6) && !(px == last - 6 && py == 6) && !(px == 6 && py == last - 6)
                 && px - 2 <= c.x <= px + 2 && py - 2 <= c.y <= py + 2
  {
    hide AlignmentPositions;
    AlignmentHasShape(version);
  }

  /** The centres: 6, then evenly spaced back from the one six modules off the far edge. */
  ghost predicate EvenlySpaced(version: Version, pos: seq<int>) {
    var n := version / 7 + 2;
    var step := (8 * version + 3 * n + 5) / (4 * n - 4) * 2;
    |pos| == n && pos[0] == 6 && forall i :: 1 <= i < n ==> pos[i] == 4 * version + 10 - (n - 1 - i) * step
  }

  lemma Centres1(version: Version)
    requires 2 <= version <= 13
    ensures EvenlySpaced(version, AlignmentPositions(version))
  {
  }

  lemma Centres2(version: Version)
    requires 13 < version <= 20
    ensures EvenlySpaced(version, AlignmentPositions(version))
  {
  }

  lemma Centres3(version: Version)
    requires 20 < version <= 27
    ensures EvenlySpaced(version, AlignmentPositions(version))
  {
  }

  lemma Centres4(version: Version)
    requires 27 < version <= 34
    ensures EvenlySpaced(version, AlignmentPositions(version))
  {
  }

  lemma Centres5(version: Version)
    requires 34 < version
    ensures EvenlySpaced(version, AlignmentPositions(version))
  {
  }

  lemma AlignmentCentres(version: Version)
    ensures if version == 1 then AlignmentPositions(version) == [] else EvenlySpaced(version, AlignmentPositions(version))
  {
    hide EvenlySpaced;
    if 2 <= version <= 13 {
      Centres1(version);
    } else if 13 < version <= 20 {
      Centres2(version);
    } else if 20 < version <= 27 {
      Centres3(version);
    } else if 27 < version <= 34 {
      Centres4(version);
    } else if 34 < version {
      Centres5(version);
    }
  }

  /** Centres are even, and only the first and the last are near an edge. */
  ghost predicate Roomy(version: Version, pos: seq<int>) {
    var n := |pos|;
    forall i :: 0 <= i < n ==>
      pos[i] % 2 == 0 && (i == 0 || 18 <= pos[i]) && (i == n - 1 || pos[i] <= Size(version) - 19)
  }

  lemma Roomy1(version: Version)
    requires version <= 13
    ensures Roomy(version, AlignmentPositions(version))
  {
  }

  lemma Roomy2(version: Version)
    requires 13 < version <= 27
    ensures Roomy(version, AlignmentPositions(version))
  {
  }

  lemma Roomy3(version: Version)
    requires 27 < version <= 34
    ensures Roomy(version, AlignmentPositions(version))
  {
  }

  lemma Roomy4(version: Version)
    requires 34 < version
    ensures Roomy(version, AlignmentPositions(version))
  {
  }

  lemma CentresAreRoomy(version: Version)
    ensures Roomy(version, AlignmentPositions(version))
  {
    hide Roomy, AlignmentPositions;
    if version <= 13 {
      Roomy1(version);
    } else if version <= 27 {
      Roomy2(version);
    } else if version <= 34 {
      Roomy3(version);
    } else {
      Roomy4(version);
    }
  }

  // ---- pictures, `#` for dark ------------------------------------------------------------

  /** The top left corner with its separator. */
  const FINDER: seq<string> := [
    "#######.",
    "#.....#.",
    "#.###.#.",
    "#.###.#.",
    "#.###.#.",
    "#.....#.",
    "#######.",
    "........"]

  const ALIGNMENT: seq<string> := [
    "#####",
    "#...#",
    "#.#.#",
    "#...#",
    "#####"]

  predicate FinderAt(dx: nat, dy: nat)
    requires dx < 8 && dy < 8
  {
    FinderRow(dy)[dx] == '#'
  }

  function FinderRow(dy: nat): (row: string)
    requires dy < 8
    ensures |row| == 8
  {
    FINDER[dy]
  }

  predicate AlignmentAt(dx: nat, dy: nat)
    requires dx < 5 && dy < 5
  {
    ALIGNMENT[dy][dx] == '#'
  }

  lemma FinderRows(row: string, dx: nat)
    requires dx < 8 && |row| == 8
    ensures row == "#######." ==> (row[dx] == '#' <==> dx != 7)
    ensures row == "#.....#." ==> (row[dx] == '#' <==> dx == 0 || dx == 6)
    ensures row == "#.###.#." ==> (row[dx] == '#' <==> dx == 0 || 2 <= dx <= 4 || dx == 6)
    ensures row == "........" ==> row[dx] != '#'
  {
  }

  lemma FinderRowAt(dy: nat)
    requires dy < 8
    ensures dy == 0 || dy == 6 ==> FinderRow(dy) == "#######."
    ensures dy == 1 || dy == 5 ==> FinderRow(dy) == "#.....#."
    ensures 2 <= dy <= 4 ==> FinderRow(dy) == "#.###.#."
    ensures dy == 7 ==> FinderRow(dy) == "........"
  {
  }

  lemma FinderRings(dx: nat, dy: nat)
    requires dx < 8 && dy < 8
    ensures FinderAt(dx, dy) == RingDark(3, 3, Cell(dx, dy))
  {
    hide FinderRow;
    FinderRowAt(dy);
    FinderRows(FinderRow(dy), dx);
  }

  lemma AlignmentRings(px: int, py: int, dx: nat, dy: nat)
    requires dx < 5 && dy < 5
    ensures AlignmentAt(dx, dy) == (Ring(px, py, Cell(px - 2 + dx, py - 2 + dy)) != 1)
  {
  }

  lemma CornerColour(version: Version, word: nat, c: Cell)
    requires InFinders(Size(version), c) && !InAlignment(version, c)
    ensures IsFunction(version, c) && PatternDark(version, word, c) == FinderDark(Size(version), c)
  {
    hide InAlignment, DotDark, AlignmentDark, FinderDark, FormatDots, VersionDots, VersionBits;
  }

  lemma TopLeftRing(size: int, dx: nat, dy: nat)
    requires size >= 21 && dx < 8 && dy < 8
    ensures InFinders(size, Cell(dx, dy)) && FinderDark(size, Cell(dx, dy)) == RingDark(3, 3, Cell(dx, dy))
  {
    hide RingDark;
  }

  lemma TopRightRing(size: int, dx: nat, dy: nat)
    requires size >= 21 && dx < 8 && dy < 8
    ensures var c := Cell(size - 1 - dx, dy);
            InFinders(size, c) && FinderDark(size, c) == RingDark(3, 3, Cell(dx, dy))
  {
    hide RingDark;
    MirroredRing(size, dx, dy);
  }

  lemma BottomLeftRing(size: int, dx: nat, dy: nat)
    requires size >= 21 && dx < 8 && dy < 8
    ensures var c := Cell(dx, size - 1 - dy);
            InFinders(size, c) && FinderDark(size, c) == RingDark(3, 3, Cell(dx, dy))
  {
    hide RingDark;
    MirroredRing(size, dx, dy);
  }

  lemma MirroredRing(size: int, dx: nat, dy: nat)
    ensures RingDark(size - 4, 3, Cell(size - 1 - dx, dy)) == RingDark(3, 3, Cell(dx, dy))
    ensures RingDark(3, size - 4, Cell(dx, size - 1 - dy)) == RingDark(3, 3, Cell(dx, dy))
  {
    assert Abs(size - 1 - dx - (size - 4)) == Abs(dx - 3) && Abs(size - 1 - dy - (size - 4)) == Abs(dy - 3);
  }

  lemma CornersAreFinders(version: Version, word: nat, dx: nat, dy: nat)
    requires dx < 8 && dy < 8
    ensures var last := Size(version) - 1;
            forall c :: c in {Cell(dx, dy), Cell(last - dx, dy), Cell(dx, last - dy)} ==>
              IsFunction(version, c) && PatternDark(version, word, c) == RingDark(3, 3, Cell(dx, dy))
  {
    hide InFinders, InAlignment, IsFunction, PatternDark, RingDark, FinderDark;
    CornersUnaligned(version, dx, dy);
    TopLeftRing(Size(version), dx, dy);
    TopRightRing(Size(version), dx, dy);
    BottomLeftRing(Size(version), dx, dy);
    var last := Size(version) - 1;
    CornerColour(version, word, Cell(dx, dy));
    CornerColour(version, word, Cell(last - dx, dy));
    CornerColour(version, word, Cell(dx, last - dy));
  }

  /** No alignment square reaches a finder. */
  lemma CornersUnaligned(version: Version, dx: nat, dy: nat)
    requires dx < 8 && dy < 8
    ensures var last := Size(version) - 1;
            !InAlignment(version, Cell(dx, dy)) && !InAlignment(version, Cell(last - dx, dy))
            && !InAlignment(version, Cell(dx, last - dy))
  {
    hide AlignmentPositions;
    AlignmentHasShape(version);
  }

  /** The three corners of every symbol, mirrored. */
  lemma FinderPicture(m: Grid, version: Version, level: Level, mask: int, cw: Bytes, dx: nat, dy: nat)
    requires -8 <= mask < 8 && IsSymbol(m, version, level, mask, cw) && dx < 8 && dy < 8
    ensures var last := Size(version) - 1;
            && m[dy][dx] == FinderAt(dx, dy)
            && m[dy][last - dx] == FinderAt(dx, dy)
            && m[last - dy][dx] == FinderAt(dx, dy)
  {
    hide IsFunction, PatternDark, FormatBits, DataCells, DataBit, MaskFn, FinderAt;
    var last := Size(version) - 1;
    CornersAreFinders(version, FormatBits(level, mask), dx, dy);
    FinderRings(dx, dy);
    assert At(m, Cell(dx, dy)) == FinderAt(dx, dy);
    assert At(m, Cell(last - dx, dy)) == FinderAt(dx, dy);
    assert At(m, Cell(dx, last - dy)) == FinderAt(dx, dy);
  }

  /** Whether a square is drawn around this pair of centre coordinates. */
  predicate Centre(version: Version, px: int, py: int) {
    && px in AlignmentPositions(version) && py in AlignmentPositions(version)
    && !(px == 6 && py == 6) && !(px == 4 * version + 10 && py == 6) && !(px == 6 && py == 4 * version + 10)
  }

  lemma CentreIs(version: Version, px: int, py: int)
    ensures Centre(version, px, py) <==>
              px in AlignmentPositions(version) && py in AlignmentPositions(version) && !Skipped(Size(version), px, py)
    ensures Centre(version, px, py) ==> px % 2 == py % 2 == 0
    ensures Centre(version, px, py) ==>
              || (18 <= px <= Size(version) - 7 && 18 <= py <= Size(version) - 7)
              || (px == 6 && 18 <= py <= Size(version) - 19) || (py == 6 && 18 <= px <= Size(version) - 19)
  {
    hide AlignmentPositions;
    AlignmentHasShape(version);
    CentresAreRoomy(version);
  }

  /** The colour of a module in the square of a centre: its ring, since no other square meets this one. */
  lemma SquareColour(version: Version, px: int, py: int, c: Cell)
    requires Centre(version, px, py) && InSquare(px, py, c)
    ensures AlignmentDark(version, c) == (Ring(px, py, c) != 1)
  {
    hide AlignmentPositions, Skipped, Ring, InSquare;
    CentreIs(version, px, py);
    var pos := AlignmentPositions(version);
    var a :| 0 <= a < |pos| && pos[a] == px;
    var b :| 0 <= b < |pos| && pos[b] == py;
    if Ring(px, py, c) != 1 {
      assert InSquare(pos[a], pos[b], c) && !Skipped(Size(version), pos[a], pos[b]);
    }
    forall i, j | 0 <= i < |pos| && 0 <= j < |pos| && InSquare(pos[i], pos[j], c) ensures i == a && j == b {
      OneSquare(version, i, j, a, b, c);
    }
  }

  lemma OneSquare(version: Version, i: nat, j: nat, a: nat, b: nat, c: Cell)
    requires var n := |AlignmentPositions(version)|; i < n && j < n && a < n && b < n
    requires var pos := AlignmentPositions(version); InSquare(pos[i], pos[j], c) && InSquare(pos[a], pos[b], c)
    ensures i == a && j == b
  {
    hide AlignmentPositions;
    if i != a {
      CentresApart(version, i, a);
    }
    if j != b {
      CentresApart(version, j, b);
    }
  }

  lemma SquareIsPattern(version: Version, word: nat, px: int, py: int, c: Cell)
    requires Centre(version, px, py) && InSquare(px, py, c)
    ensures Inside(Size(version), c) && IsFunction(version, c)
    ensures PatternDark(version, word, c) == (Ring(px, py, c) != 1)
  {
    hide AlignmentPositions, Ring, DotDark, VersionBits, FormatDots, VersionDots, AlignmentDark;
    CentreIs(version, px, py);
    SquareColour(version, px, py, c);
  }

  /** The square around every centre. */
  lemma AlignmentPicture(m: Grid, version: Version, level: Level, mask: int, cw: Bytes,
                         px: int, py: int, dx: nat, dy: nat)
    requires -8 <= mask < 8 && IsSymbol(m, version, level, mask, cw) && Centre(version, px, py) && dx < 5 && dy < 5
    ensures 0 <= py - 2 + dy < |m| && 0 <= px - 2 + dx < |m| && m[py - 2 + dy][px - 2 + dx] == AlignmentAt(dx, dy)
  {
    hide IsFunction, PatternDark, FormatBits, DataCells, DataBit, MaskFn, AlignmentAt, Centre, Ring;
    var c := Cell(px - 2 + dx, py - 2 + dy);
    SquareIsPattern(version, FormatBits(level, mask), px, py, c);
    AlignmentRings(px, py, dx, dy);
    assert At(m, c) == AlignmentAt(dx, dy);
  }

  /** Squares on row or column 6 continue its alternation: their centres are even. */
  lemma AlignedTiming(version: Version, i: nat, c: Cell)
    requires 8 <= i < Size(version) - 8 && (c == Cell(i, 6) || c == Cell(6, i)) && InAlignment(version, c)
    ensures AlignmentDark(version, c) == (i % 2 == 0)
  {
    hide AlignmentPositions, AlignmentDark, Centre, Skipped;
    var px, py :| px in AlignmentPositions(version) && py in AlignmentPositions(version)
      && !Skipped(Size(version), px, py) && InSquare(px, py, c);
    CentreIs(version, px, py);
    SquareColour(version, px, py, c);
    var d := i - (if c.y == 6 then px else py);
    assert d % 2 == i % 2;
  }

  lemma TimingColour(version: Version, word: nat, i: nat, c: Cell)
    requires 8 <= i < Size(version) - 8 && (c == Cell(i, 6) || c == Cell(6, i))
    ensures IsFunction(version, c) && PatternDark(version, word, c) == (i % 2 == 0)
  {
    hide AlignmentPositions, DotDark, VersionBits, FormatDots, VersionDots, AlignmentDark, InAlignment;
    if InAlignment(version, c) {
      AlignedTiming(version, i, c);
    }
  }

  /** Row 6 and column 6 alternate between the finders, through the alignment squares as well. */
  lemma TimingPicture(m: Grid, version: Version, level: Level, mask: int, cw: Bytes, i: nat)
    requires -8 <= mask < 8 && IsSymbol(m, version, level, mask, cw) && 8 <= i < Size(version) - 8
    ensures m[6][i] == (i % 2 == 0) && m[i][6] == (i % 2 == 0)
  {
    hide IsFunction, PatternDark, FormatBits, DataCells, DataBit, MaskFn;
    TimingColour(version, FormatBits(level, mask), i, Cell(i, 6));
    TimingColour(version, FormatBits(level, mask), i, Cell(6, i));
    assert At(m, Cell(i, 6)) == (i % 2 == 0);
    assert At(m, Cell(6, i)) == (i % 2 == 0);
  }

  // ---- the two words ------------------------------------------------------------------------

  /** Bit i of the format word, by row and column: beside the top left finder, and split between the other two. */
  lemma FormatPlaces(m: Grid, version: Version, level: Level, mask: int, cw: Bytes, i: nat)
    requires -8 <= mask < 8 && IsSymbol(m, version, level, mask, cw) && i < 15
    ensures var word, size := FormatBits(level, mask), |m|;
            && (i <= 5 ==> m[i][8] == Bit(word, i))
            && (i == 6 ==> m[7][8] == Bit(word, i))
            && (i == 7 ==> m[8][8] == Bit(word, i))
            && (i == 8 ==> m[8][7] == Bit(word, i))
            && (i >= 9 ==> m[8][14 - i] == Bit(word, i))
            && (i <= 7 ==> m[8][size - 1 - i] == Bit(word, i))
            && (i >= 8 ==> m[size - 15 + i][8] == Bit(word, i))
            && m[size - 8][8]
  {
    hide FormatBits, Bit, IsFunction, PatternDark, DataCells, DataBit, MaskFn;
    FormatCopies(m, version, level, mask, cw, i);
    assert At(m, Cell(8, Size(version) - 8));
  }

  /** The format word, its mask 101010000010010 removed, is a codeword that starts with level and mask. */
  lemma FormatWord(level: Level, mask: int) returns (q: nat)
    requires 0 <= mask < 8
    ensures Xor(FormatBits(level, mask), 0x5412) == QrBch.Carryless(q, 0x537)
    ensures Xor(FormatBits(level, mask), 0x5412) / 1024 == (if level == Low then 8 else 0) + mask
    ensures FormatBits(level, mask) < 32768
  {
    hide FormatBits, Xor, QrBch.Carryless, Pow2;
    q := QrBch.FormatIsCodeword(level, mask);
    FormatWordFits(level, mask);
    Pow2Fifteen(15);
  }

  /** Level M with mask 0 leaves the bare mask. */
  lemma PlainWord()
    ensures FormatBits(Medium, 0) == 0x5412
  {
    hide Bit, Bch, Xor;
    EmptyRegister(10);
    XorZero(FORMAT_MASK);
  }

  lemma {:induction false} EmptyRegister(n: nat)
    ensures Bch(0, 0x537, 9, n) == 0
  {
    if n > 0 {
      EmptyRegister(n - 1);
      BitZero(9);
    }
  }

  lemma VersionWord(version: Version) returns (q: nat)
    ensures VersionBits(version) == QrBch.Carryless(q, 0x1F25)
    ensures VersionBits(version) / 4096 == version
  {
    hide Bch, QrBch.Carryless;
    q := QrBch.VersionIsCodeword(version);
  }

  lemma VersionColour(version: Version, word: nat, i: nat)
    requires version >= 7 && i < 18
    ensures var a, b := Size(version) - 11 + i % 3, i / 3;
            forall c :: c in {Cell(a, b), Cell(b, a)} ==>
              Inside(Size(version), c) && IsFunction(version, c)
              && PatternDark(version, word, c) == Bit(VersionBits(version), i)
  {
    hide VersionBits, Bit, VersionDots, InAlignment, InFinders, InTiming, AlignmentDark, FormatDots;
    var size, bits := Size(version), VersionBits(version);
    var dots := VersionDots(size, bits);
    VersionDotsAt(size, bits, i);
    VersionDistinct(size, bits);
    WordDot(dots, 2 * i);
    WordDot(dots, 2 * i + 1);
  }

  lemma WordDot(dots: seq<Dot>, i: nat)
    requires DistinctDots(dots) && i < |dots|
    ensures DotDark(dots, dots[i].cell) == dots[i].dark
  {
    if dots[i].dark {
      assert dots[i] == Dot(dots[i].cell, true);
    }
  }

  /** Bit i of the version word, from version 7 on: three columns beside the top right finder, and their mirror image. */
  lemma VersionPlaces(m: Grid, version: Version, level: Level, mask: int, cw: Bytes, i: nat)
    requires -8 <= mask < 8 && IsSymbol(m, version, level, mask, cw) && version >= 7 && i < 18
    ensures var size := |m|;
            && m[i / 3][size - 11 + i % 3] == Bit(VersionBits(version), i)
            && m[size - 11 + i % 3][i / 3] == Bit(VersionBits(version), i)
  {
    hide FormatBits, VersionBits, Bit, IsFunction, PatternDark, DataCells, DataBit, MaskFn;
    var a, b := Size(version) - 11 + i % 3, i / 3;
    VersionColour(version, FormatBits(level, mask), i);
    var bit := Bit(VersionBits(version), i);
    assert At(m, Cell(a, b)) == bit;
    assert At(m, Cell(b, a)) == bit;
  }
}
