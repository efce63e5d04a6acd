/** The exact number of data modules, and in which versions the codewords fill them. */
module QrFilling {
  import opened Basics
  import opened QrTables
  import opened QrGeometry
  import opened QrCapacity
  import opened QrPatterns

  // ---- sizes of the pieces -------------------------------------------------------------

  lemma {:induction false} StripMember(x: int, y: int, h: nat, c: Cell)
    ensures c in Strip(x, y, h) <==> c.x == x && y <= c.y < y + h
  {
    if h > 0 {
      StripMember(x, y, h - 1, c);
    }
  }

  lemma StripNext(x: int, y: int, h: nat)
    ensures Strip(x, y, 0) == {} && (h > 0 ==> Strip(x, y, h) == Strip(x, y, h - 1) + {Cell(x, y + h - 1)})
  {
  }

  lemma {:induction false} StripSize(x: int, y: int, h: nat)
    ensures |Strip(x, y, h)| == h
  {
    hide Strip;
    StripNext(x, y, h);
    if h > 0 {
      StripSize(x, y, h - 1);
      StripMember(x, y, h - 1, Cell(x, y + h - 1));
      Together(Strip(x, y, h - 1), {Cell(x, y + h - 1)});
    }
  }

  lemma StripIs(x: int, y: int, h: nat)
    ensures |Strip(x, y, h)| == h
    ensures forall c :: c in Strip(x, y, h) <==> c.x == x && y <= c.y < y + h
  {
    hide Strip;
    StripSize(x, y, h);
    forall c ensures c in Strip(x, y, h) <==> c.x == x && y <= c.y < y + h {
      StripMember(x, y, h, c);
    }
  }

  lemma {:induction false} RectIs(x: int, w: nat, y: int, h: nat)
    ensures |Rect(x, w, y, h)| == w * h
    ensures forall c :: c in Rect(x, w, y, h) <==> x <= c.x < x + w && y <= c.y < y + h
  {
    hide Strip;
    if w > 0 {
      var s, t := Rect(x, w - 1, y, h), Strip(x + w - 1, y, h);
      RectIs(x, w - 1, y, h);
      StripIs(x + w - 1, y, h);
      assert s * t == {};
      assert |s + t| == |s| + |t|;
      assert w * h == (w - 1) * h + h;
    }
  }

  lemma Together(a: set<Cell>, b: set<Cell>)
    requires a !! b
    ensures |a + b| == |a| + |b|
  {
  }

  /** The finders. */
  function CornerCover(size: nat): set<Cell>
    requires size >= 21
  {
    Rect(0, 6, 0, 8) + Rect(7, 1, 0, 8) + Rect(size - 8, 8, 0, 8) + Rect(0, 6, size - 8, 8) + Rect(7, 1, size - 8, 8)
  }

  /** Timing and format modules. */
  function LineCover(size: nat): set<Cell>
    requires size >= 21
  {
    Rect(8, size - 16, 6, 1) + Rect(8, 1, 0, 6) + Rect(8, 1, 7, 2) + Rect(7, 1, 8, 1) + Rect(0, 6, 8, 1)
    + Rect(size - 8, 8, 8, 1) + Rect(8, 1, size - 8, 8)
  }

  predicate InCorner(size: int, c: Cell) {
    || (0 <= c.x < 8 && c.x != 6 && (0 <= c.y < 8 || size - 8 <= c.y < size))
    || (size - 8 <= c.x < size && 0 <= c.y < 8)
  }

  predicate InLine(size: int, c: Cell) {
    || (8 <= c.x < size - 8 && c.y == 6)
    || (c.x == 8 && (0 <= c.y < 6 || 7 <= c.y < 9 || size - 8 <= c.y < size))
    || (c.y == 8 && (c.x == 7 || 0 <= c.x < 6 || size - 8 <= c.x < size))
  }

  lemma CornerSize(size: nat)
    requires size >= 21
    ensures |CornerCover(size)| == 176
    ensures forall c :: c in CornerCover(size) <==> InCorner(size, c)
  {
    hide Rect;
    RectIs(0, 6, 0, 8);
    RectIs(7, 1, 0, 8);
    RectIs(size - 8, 8, 0, 8);
    RectIs(0, 6, size - 8, 8);
    RectIs(7, 1, size - 8, 8);
    var a := Rect(0, 6, 0, 8) + Rect(7, 1, 0, 8);
    Together(Rect(0, 6, 0, 8), Rect(7, 1, 0, 8));
    var b := a + Rect(size - 8, 8, 0, 8);
    Together(a, Rect(size - 8, 8, 0, 8));
    var c := b + Rect(0, 6, size - 8, 8);
    Together(b, Rect(0, 6, size - 8, 8));
    Together(c, Rect(7, 1, size - 8, 8));
  }

  lemma LineSize(size: nat)
    requires size >= 21
    ensures |LineCover(size)| == size + 15
    ensures forall c :: c in LineCover(size) <==> InLine(size, c)
  {
    hide Rect;
    RectIs(8, size - 16, 6, 1);
    RectIs(8, 1, 0, 6);
    RectIs(8, 1, 7, 2);
    RectIs(7, 1, 8, 1);
    RectIs(0, 6, 8, 1);
    RectIs(size - 8, 8, 8, 1);
    RectIs(8, 1, size - 8, 8);
    var e := Rect(8, size - 16, 6, 1) + Rect(8, 1, 0, 6);
    Together(Rect(8, size - 16, 6, 1), Rect(8, 1, 0, 6));
    var g := e + Rect(8, 1, 7, 2);
    Together(e, Rect(8, 1, 7, 2));
    var h := g + Rect(7, 1, 8, 1);
    Together(g, Rect(7, 1, 8, 1));
    var i := h + Rect(0, 6, 8, 1);
    Together(h, Rect(0, 6, 8, 1));
    var j := i + Rect(size - 8, 8, 8, 1);
    Together(i, Rect(size - 8, 8, 8, 1));
    Together(j, Rect(8, 1, size - 8, 8));
  }

  lemma FixedParts(size: nat)
    requires size >= 21
    ensures FixedCover(size) == CornerCover(size) + LineCover(size)
  {
    hide Rect;
  }

  lemma FixedSize(size: nat)
    requires size >= 21
    ensures |FixedCover(size)| == 191 + size
    ensures forall c :: c in FixedCover(size) <==> InCorner(size, c) || InLine(size, c)
  {
    hide FixedCover, CornerCover, LineCover;
    FixedParts(size);
    CornerSize(size);
    LineSize(size);
    Together(CornerCover(size), LineCover(size));
  }

  lemma FixedIs(version: Version, c: Cell)
    requires InCorner(Size(version), c) || InLine(Size(version), c)
    ensures c.x != 6 && Inside(Size(version), c)
    ensures c.x <= 8 || c.y <= 8
    ensures c.y == 6 || c.x <= 8 || c.x >= Size(version) - 8
    ensures c.y <= 8 || c.y >= Size(version) - 8
    ensures IsFunction(version, c)
  {
    hide InAlignment;
  }

  lemma SquareIs(size: int, px: int, py: int)
    requires Skipped(size, px, py) || px == 6 || py == 6 || (px >= 10 && py >= 10)
    ensures |SquareCover(size, px, py)| == Weight(size, px, py)
    ensures forall c :: c in SquareCover(size, px, py) ==>
              !Skipped(size, px, py) && InSquare(px, py, c) && (px == 6 ==> c.x != 6) && (px != 6 && py == 6 ==> c.y != 6)
  {
    hide Rect;
    RectIs(4, 2, py - 2, 5);
    RectIs(7, 2, py - 2, 5);
    RectIs(px - 2, 5, 4, 2);
    RectIs(px - 2, 5, 7, 2);
    RectIs(px - 2, 5, py - 2, 5);
    Together(Rect(4, 2, py - 2, 5), Rect(7, 2, py - 2, 5));
    Together(Rect(px - 2, 5, 4, 2), Rect(px - 2, 5, 7, 2));
  }

  lemma VersionSize(version: Version)
    ensures |VersionCover(version)| == if version < 7 then 0 else 36
    ensures forall c :: c in VersionCover(version) <==> InVersion(version, c)
  {
    hide Rect;
    var size := Size(version);
    RectIs(size - 11, 3, 0, 6);
    RectIs(0, 6, size - 11, 3);
    Together(Rect(size - 11, 3, 0, 6), Rect(0, 6, size - 11, 3));
  }

  // ---- the squares do not meet -----------------------------------------------------------

  lemma {:induction false} RowIs(version: Version, px: int, m: nat)
    requires px in AlignmentPositions(version) && m <= |AlignmentPositions(version)|
    ensures var pos, size := AlignmentPositions(version), Size(version);
            && |RowCover(size, pos, px, m)| == RowWeight(size, pos, px, m)
            && forall c :: c in RowCover(size, pos, px, m) ==>
                 exists b :: 0 <= b < m && Drawn(version, px, pos[b], c)
  {
    hide AlignmentPositions, SquareCover, Weight, Drawn;
    var pos, size := AlignmentPositions(version), Size(version);
    if m > 0 {
      RowIs(version, px, m - 1);
      var done, next := RowCover(size, pos, px, m - 1), SquareCover(size, px, pos[m - 1]);
      SquareDrawn(version, px, pos[m - 1]);
      forall c | c in done ensures c !in next {
        var b :| 0 <= b < m - 1 && Drawn(version, px, pos[b], c);
        if c in next {
          DrawnApart(version, px, b, m - 1, c);
        }
      }
      Together(done, next);
    }
  }

  /** The module lies in the square of this centre, outside column 6, and outside row 6 next to it. */
  ghost predicate Drawn(version: Version, px: int, py: int, c: Cell) {
    Centre(version, px, py) && InSquare(px, py, c) && c.x != 6 && (py == 6 ==> c.y != 6)
  }

  lemma SquareDrawn(version: Version, px: int, py: int)
    requires px in AlignmentPositions(version) && py in AlignmentPositions(version)
    ensures |SquareCover(Size(version), px, py)| == Weight(Size(version), px, py)
    ensures forall c :: c in SquareCover(Size(version), px, py) ==> Drawn(version, px, py, c)
  {
    hide AlignmentPositions, SquareCover, Weight, Centre;
    CentreIs(version, px, py);
    SquareIs(Size(version), px, py);
  }

  lemma DrawnApart(version: Version, px: int, i: nat, j: nat, c: Cell)
    requires i < |AlignmentPositions(version)| && j < |AlignmentPositions(version)| && i != j
    requires var pos := AlignmentPositions(version); Drawn(version, px, pos[i], c)
    ensures !Drawn(version, px, AlignmentPositions(version)[j], c)
  {
    hide AlignmentPositions, Centre;
    CentresApart(version, i, j);
  }

  /** One of the squares in the first n columns of centres holds the module. */
  ghost predicate DrawnBefore(version: Version, n: nat, c: Cell)
    requires n <= |AlignmentPositions(version)|
  {
    var pos := AlignmentPositions(version);
    exists a :: 0 <= a < n && DrawnIn(version, pos[a], c)
  }

  ghost predicate DrawnIn(version: Version, px: int, c: Cell) {
    var pos := AlignmentPositions(version);
    exists b :: 0 <= b < |pos| && Drawn(version, px, pos[b], c)
  }

  lemma AlignNext(size: int, pos: seq<int>, n: nat)
    requires n <= |pos|
    ensures n == 0 ==> AlignCover(size, pos, n) == {} && AlignWeight(size, pos, n) == 0
    ensures n > 0 ==> AlignCover(size, pos, n) == AlignCover(size, pos, n - 1) + RowCover(size, pos, pos[n - 1], |pos|)
    ensures n > 0 ==> AlignWeight(size, pos, n) == AlignWeight(size, pos, n - 1) + RowWeight(size, pos, pos[n - 1], |pos|)
  {
    hide RowCover, RowWeight;
  }

  lemma {:induction false} SquaresDrawn(version: Version, n: nat, c: Cell)
    requires n <= |AlignmentPositions(version)|
    requires c in AlignCover(Size(version), AlignmentPositions(version), n)
    ensures DrawnBefore(version, n, c)
  {
    hide AlignmentPositions, RowCover, RowWeight, DrawnIn, AlignCover;
    var pos, size := AlignmentPositions(version), Size(version);
    AlignNext(size, pos, n);
    if c in AlignCover(size, pos, n - 1) {
      SquaresDrawn(version, n - 1, c);
    } else {
      ColumnDrawn(version, pos[n - 1]);
      assert DrawnIn(version, pos[n - 1], c);
    }
  }

  lemma {:induction false} SquaresSize(version: Version, n: nat)
    requires n <= |AlignmentPositions(version)|
    ensures var pos, size := AlignmentPositions(version), Size(version);
            |AlignCover(size, pos, n)| == AlignWeight(size, pos, n)
  {
    hide AlignmentPositions, RowCover, RowWeight, DrawnIn, AlignCover, AlignWeight;
    var pos, size := AlignmentPositions(version), Size(version);
    AlignNext(size, pos, n);
    if n > 0 {
      SquaresSize(version, n - 1);
      ColumnDrawn(version, pos[n - 1]);
      var done, next := AlignCover(size, pos, n - 1), RowCover(size, pos, pos[n - 1], |pos|);
      forall c | c in done ensures c !in next {
        SquaresDrawn(version, n - 1, c);
        if c in next {
          var a :| 0 <= a < n - 1 && DrawnIn(version, pos[a], c);
          RowsApart(version, a, n - 1, c);
        }
      }
      Together(done, next);
    }
  }

  lemma SquaresAre(version: Version, n: nat)
    requires n <= |AlignmentPositions(version)|
    ensures var pos, size := AlignmentPositions(version), Size(version);
            && |AlignCover(size, pos, n)| == AlignWeight(size, pos, n)
            && forall c :: c in AlignCover(size, pos, n) ==> DrawnBefore(version, n, c)
  {
    hide AlignmentPositions, AlignCover, AlignWeight, DrawnBefore;
    SquaresSize(version, n);
    forall c | c in AlignCover(Size(version), AlignmentPositions(version), n) ensures DrawnBefore(version, n, c) {
      SquaresDrawn(version, n, c);
    }
  }

  lemma ColumnDrawn(version: Version, px: int)
    requires px in AlignmentPositions(version)
    ensures var pos, size := AlignmentPositions(version), Size(version);
            && |RowCover(size, pos, px, |pos|)| == RowWeight(size, pos, px, |pos|)
            && forall c :: c in RowCover(size, pos, px, |pos|) ==> DrawnIn(version, px, c)
  {
    hide AlignmentPositions, RowCover, RowWeight, Drawn;
    RowIs(version, px, |AlignmentPositions(version)|);
  }

  lemma RowsApart(version: Version, a: nat, i: nat, c: Cell)
    requires a < |AlignmentPositions(version)| && i < |AlignmentPositions(version)| && a != i
    requires DrawnIn(version, AlignmentPositions(version)[a], c)
    ensures !DrawnIn(version, AlignmentPositions(version)[i], c)
  {
    hide AlignmentPositions, Centre;
    CentresApart(version, a, i);
  }

  lemma DrawnIs(version: Version, n: nat, c: Cell)
    requires n <= |AlignmentPositions(version)| && DrawnBefore(version, n, c)
    ensures Inside(Size(version), c) && IsFunction(version, c) && c.x != 6
    ensures !InCorner(Size(version), c) && !InLine(Size(version), c) && !InVersion(version, c)
  {
    hide AlignmentPositions, Centre, InFinders, InTiming, InFormat;
    var pos := AlignmentPositions(version);
    var a :| 0 <= a < n && DrawnIn(version, pos[a], c);
    var b :| 0 <= b < |pos| && Drawn(version, pos[a], pos[b], c);
    CentreIs(version, pos[a], pos[b]);
  }

  // ---- counting ------------------------------------------------------------------------------

  /** The three parts of the cover do not meet, and all their modules are function modules of the walk. */
  lemma PartsApart(version: Version)
    ensures var pos, size := AlignmentPositions(version), Size(version);
            FixedCover(size) !! AlignCover(size, pos, |pos|)
            && FixedCover(size) + AlignCover(size, pos, |pos|) !! VersionCover(version)
    ensures forall c :: c in Cover(version) ==> Inside(Size(version), c) && IsFunction(version, c) && c.x != 6
  {
    hide AlignmentPositions, FixedCover, AlignCover, VersionCover, AlignWeight, DrawnBefore, IsFunction, InVersion,
         InCorner, InLine;
    var pos, size := AlignmentPositions(version), Size(version);
    FixedSize(size);
    VersionSize(version);
    SquaresAre(version, |pos|);
    forall c | DrawnBefore(version, |pos|, c)
      ensures !InCorner(size, c) && !InLine(size, c) && !InVersion(version, c)
      ensures Inside(size, c) && IsFunction(version, c) && c.x != 6
    {
      DrawnIs(version, |pos|, c);
    }
    forall c | InCorner(size, c) || InLine(size, c)
      ensures !InVersion(version, c) && Inside(size, c) && IsFunction(version, c) && c.x != 6
    {
      FixedIs(version, c);
      FixedNoVersion(version, c);
    }
    forall c | InVersion(version, c) ensures Inside(size, c) && IsFunction(version, c) && c.x != 6 {
      VersionIsFunction(version, c);
    }
  }

  lemma CoverSize(version: Version)
    ensures var n := |AlignmentPositions(version)|;
            |Cover(version)| == 191 + Size(version) + (if version < 7 then 0 else 36)
                                + (if version == 1 then 0 else 40 * (n - 2) + 25 * (n - 1) * (n - 1))
  {
    hide AlignmentPositions, FixedCover, AlignCover, VersionCover, AlignWeight, DrawnBefore, IsFunction, InVersion,
         InCorner, InLine;
    var pos, size := AlignmentPositions(version), Size(version);
    AlignmentHasShape(version);
    FixedSize(size);
    VersionSize(version);
    SquaresAre(version, |pos|);
    PartsApart(version);
    Together(FixedCover(size), AlignCover(size, pos, |pos|));
    Together(FixedCover(size) + AlignCover(size, pos, |pos|), VersionCover(version));
    if version == 1 {
      NoWeight(size, pos);
    } else {
      AlignWeightForm(version, pos, |pos|);
      Expand(|pos|);
    }
  }

  lemma FixedNoVersion(version: Version, c: Cell)
    requires c.y == 6 || c.x <= 8 || c.x >= Size(version) - 8
    requires c.y <= 8 || c.y >= Size(version) - 8
    ensures !InVersion(version, c)
  {
  }

  lemma VersionIsFunction(version: Version, c: Cell)
    requires InVersion(version, c)
    ensures Inside(Size(version), c) && IsFunction(version, c) && c.x != 6
  {
    hide InFinders, InTiming, InAlignment, InFormat;
  }

  lemma {:induction false} FreeAtMost(version: Version, cells: seq<Cell>, cover: set<Cell>)
    requires forall c :: c in cover ==> IsFunction(version, c)
    ensures |Free(version, cells)| + |cover * CellSet(cells)| <= |cells|
  {
    hide IsFunction;
    if cells != [] {
      var n := |cells| - 1;
      var init, c := cells[..n], cells[n];
      FreeAtMost(version, init, cover);
      assert cells == init + [c];
      FreeStep(version, init, c);
      assert CellSet(cells) == CellSet(init) + {c};
      if IsFunction(version, c) {
        assert cover * CellSet(cells) <= cover * CellSet(init) + {c};
        SubsetSize(cover * CellSet(cells), cover * CellSet(init) + {c});
      } else {
        assert cover * CellSet(cells) == cover * CellSet(init);
      }
    }
  }

  lemma WalkHolds(version: Version)
    ensures Cover(version) <= CellSet(Zigzag(Size(version)))
  {
    hide IsFunction, AlignmentPositions, Cover, Zigzag, Free, FixedCover, AlignCover, VersionCover;
    PartsApart(version);
    forall c | c in Cover(version) ensures c in Zigzag(Size(version)) {
      WalkCovers(Size(version), c);
    }
  }

  lemma CoverInWalk(version: Version)
    ensures |DataCells(version)| + |Cover(version)| <= |Zigzag(Size(version))|
  {
    hide IsFunction, AlignmentPositions, Cover, Zigzag, Free, CellSet, FixedCover, AlignCover, VersionCover;
    var cells, cover := Zigzag(Size(version)), Cover(version);
    PartsApart(version);
    WalkHolds(version);
    assert cover * CellSet(cells) == cover;
    FreeAtMost(version, cells, cover);
  }

  /** Modules of a version that carry data. */
  function RawModules(version: Version): int {
    var n := version / 7 + 2;
    (16 * version + 128) * version + 64
    - (if version == 1 then 0 else (25 * n - 10) * n - 55)
    - (if version < 7 then 0 else 36)
  }

  lemma RawForm(version: Version, n: int, size: int)
    requires size == Size(version) && n == version / 7 + 2
    ensures size * (size - 1) - 191 - size - (if version < 7 then 0 else 36)
            - (if version == 1 then 0 else 40 * (n - 2) + 25 * (n - 1) * (n - 1)) == RawModules(version)
  {
    SizeSquare(version, size);
    CentreSquare(n);
  }

  lemma SizeSquare(v: int, size: int)
    requires size == 4 * v + 17
    ensures size * (size - 1) - 191 - size == (16 * v + 128) * v + 64
  {
    var w := v * v;
    assert size * (size - 1) == 16 * w + 132 * v + 272;
    assert (16 * v + 128) * v == 16 * w + 128 * v;
  }

  lemma CentreSquare(n: int)
    ensures 40 * (n - 2) + 25 * (n - 1) * (n - 1) == (25 * n - 10) * n - 55
  {
  }

  /** The number of data modules of every version. */
  lemma DataModules(version: Version)
    ensures |DataCells(version)| == RawModules(version)
  {
    hide AlignmentPositions, Cover, DataCells, Zigzag, RawModules;
    var size := Size(version);
    CoverInWalk(version);
    CoveredByWalk(version);
    WalkLength(version, size);
    CoverSize(version);
    AlignmentHasShape(version);
    RawForm(version, version / 7 + 2, size);
  }

  ghost predicate FillsBelow39(version: Version) {
    var left := RawModules(version) - 8 * TotalCodewords(version);
    0 <= left && (left < 8 <==> version <= 38) && (version == 39 ==> left == 560) && (version == 40 ==> left == 800)
  }

  lemma Fill1(version: Version)
    requires version <= 4
    ensures FillsBelow39(version)
  {
  }

  lemma Fill2(version: Version)
    requires 4 < version <= 6
    ensures FillsBelow39(version)
  {
  }

  lemma Fill3(version: Version)
    requires 6 < version <= 10
    ensures FillsBelow39(version)
  {
  }

  lemma Fill4(version: Version)
    requires 10 < version <= 15
    ensures FillsBelow39(version)
  {
  }

  lemma Fill5(version: Version)
    requires 15 < version <= 20
    ensures FillsBelow39(version)
  {
  }

  lemma Fill6(version: Version)
    requires 20 < version <= 30
    ensures FillsBelow39(version)
  {
  }

  lemma Fill7(version: Version)
    requires 30 < version
    ensures FillsBelow39(version)
  {
  }

  lemma FillArithmetic(version: Version)
    ensures FillsBelow39(version)
  {
    hide FillsBelow39;
    if version <= 4 {
      Fill1(version);
    } else if version <= 6 {
      Fill2(version);
    } else if version <= 10 {
      Fill3(version);
    } else if version <= 15 {
      Fill4(version);
    } else if version <= 20 {
      Fill5(version);
    } else if version <= 30 {
      Fill6(version);
    } else {
      Fill7(version);
    }
  }

  /**
    * The codewords fill the data modules, with fewer than eight left over, exactly in versions 1 to 38;
    * in version 39 they leave 560 modules that carry the mask only, in version 40 they leave 800.
    */
  lemma CodewordsFillIff(version: Version)
    ensures |DataCells(version)| - 8 * TotalCodewords(version) < 8 <==> version <= 38
    ensures version == 39 ==> |DataCells(version)| - 8 * TotalCodewords(version) == 560
    ensures version == 40 ==> |DataCells(version)| - 8 * TotalCodewords(version) == 800
  {
    hide DataCells, RawModules, TotalCodewords;
    DataModules(version);
    FillArithmetic(version);
  }
}
