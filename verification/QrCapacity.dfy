/** Every version has at least as many data modules as codeword bits. */
module QrCapacity {
  import opened Basics
  import opened QrTables
  import opened QrGeometry

  // ---- rectangles of cells ----------------------------------------------------

  function Strip(x: int, y: int, h: nat): (s: set<Cell>)
    ensures |s| <= h
  {
    if h == 0 then {} else Strip(x, y, h - 1) + {Cell(x, y + h - 1)}
  }

  function Rect(x: int, w: nat, y: int, h: nat): (s: set<Cell>)
    ensures |s| <= w * h
  {
    if w == 0 then {} else Rect(x, w - 1, y, h) + Strip(x + w - 1, y, h)
  }

  lemma {:induction false} InStrip(x: int, y: int, h: nat, c: Cell)
    requires c.x == x && y <= c.y < y + h
    ensures c in Strip(x, y, h)
  {
    if c.y < y + h - 1 {
      InStrip(x, y, h - 1, c);
    }
  }

  lemma {:induction false} InRect(x: int, w: nat, y: int, h: nat, c: Cell)
    requires x <= c.x < x + w && y <= c.y < y + h
    ensures c in Rect(x, w, y, h)
  {
    if c.x < x + w - 1 {
      InRect(x, w - 1, y, h, c);
    } else {
      InStrip(c.x, y, h, c);
    }
  }

  lemma UnionBound(a: set<Cell>, b: set<Cell>)
    ensures |a + b| <= |a| + |b|
  {
    assert a + b == a + (b - a);
    assert |b - a| <= |b| by {
      assert b == (b - a) + (b * a);
    }
  }

  // ---- alignment patterns -------------------------------------------------------

  /** Modules of one alignment square that neither timing line holds. */
  function SquareCover(size: int, px: int, py: int): set<Cell> {
    if Skipped(size, px, py) then {}
    else if px == 6 then Rect(4, 2, py - 2, 5) + Rect(7, 2, py - 2, 5)
    else if py == 6 then Rect(px - 2, 5, 4, 2) + Rect(px - 2, 5, 7, 2)
    else Rect(px - 2, 5, py - 2, 5)
  }

  function Weight(size: int, px: int, py: int): nat {
    if Skipped(size, px, py) then 0 else if px == 6 || py == 6 then 20 else 25
  }

  lemma SquareBound(size: int, px: int, py: int)
    ensures |SquareCover(size, px, py)| <= Weight(size, px, py)
  {
    hide Rect;
    UnionBound(Rect(4, 2, py - 2, 5), Rect(7, 2, py - 2, 5));
    UnionBound(Rect(px - 2, 5, 4, 2), Rect(px - 2, 5, 7, 2));
  }

  function RowCover(size: int, pos: seq<int>, px: int, m: nat): set<Cell>
    requires m <= |pos|
  {
    if m == 0 then {} else RowCover(size, pos, px, m - 1) + SquareCover(size, px, pos[m - 1])
  }

  function RowWeight(size: int, pos: seq<int>, px: int, m: nat): nat
    requires m <= |pos|
  {
    if m == 0 then 0 else RowWeight(size, pos, px, m - 1) + Weight(size, px, pos[m - 1])
  }

  function AlignCover(size: int, pos: seq<int>, n: nat): set<Cell>
    requires n <= |pos|
  {
    if n == 0 then {} else AlignCover(size, pos, n - 1) + RowCover(size, pos, pos[n - 1], |pos|)
  }

  function AlignWeight(size: int, pos: seq<int>, n: nat): nat
    requires n <= |pos|
  {
    if n == 0 then 0 else AlignWeight(size, pos, n - 1) + RowWeight(size, pos, pos[n - 1], |pos|)
  }

  lemma {:induction false} RowBound(size: int, pos: seq<int>, px: int, m: nat)
    requires m <= |pos|
    ensures |RowCover(size, pos, px, m)| <= RowWeight(size, pos, px, m)
  {
    hide SquareCover, Weight;
    if m > 0 {
      RowBound(size, pos, px, m - 1);
      SquareBound(size, px, pos[m - 1]);
      UnionBound(RowCover(size, pos, px, m - 1), SquareCover(size, px, pos[m - 1]));
    }
  }

  lemma {:induction false} AlignBound(size: int, pos: seq<int>, n: nat)
    requires n <= |pos|
    ensures |AlignCover(size, pos, n)| <= AlignWeight(size, pos, n)
  {
    hide RowCover, RowWeight;
    if n > 0 {
      AlignBound(size, pos, n - 1);
      RowBound(size, pos, pos[n - 1], |pos|);
      UnionBound(AlignCover(size, pos, n - 1), RowCover(size, pos, pos[n - 1], |pos|));
    }
  }

  lemma {:induction false} RowMember(size: int, pos: seq<int>, px: int, m: nat, b: nat, c: Cell)
    requires b < m <= |pos| && c in SquareCover(size, px, pos[b])
    ensures c in RowCover(size, pos, px, m)
  {
    hide SquareCover;
    if b < m - 1 {
      RowMember(size, pos, px, m - 1, b, c);
    }
  }

  lemma {:induction false} AlignMember(size: int, pos: seq<int>, n: nat, a: nat, b: nat, c: Cell)
    requires a < n <= |pos| && b < |pos| && c in SquareCover(size, pos[a], pos[b])
    ensures c in AlignCover(size, pos, n)
  {
    hide SquareCover, RowCover;
    if a < n - 1 {
      AlignMember(size, pos, n - 1, a, b, c);
    } else {
      RowMember(size, pos, pos[a], |pos|, b, c);
    }
  }

  /** The weight of the m first squares in a column of squares. */
  lemma {:induction false} RowWeightForm(version: Version, pos: seq<int>, a: nat, m: nat)
    requires AlignmentShape(version, pos) && a < |pos| && m <= |pos| && |pos| >= 2
    ensures var n := |pos|;
            var size := Size(version);
            RowWeight(size, pos, pos[a], m)
            == if m == 0 then 0
               else if a == 0 then 20 * (if m == n then n - 2 else m - 1)
               else (if a == n - 1 then 0 else 20) + 25 * (m - 1)
  {
    if m > 0 {
      RowWeightForm(version, pos, a, m - 1);
    }
  }

  lemma {:induction false} AlignWeightForm(version: Version, pos: seq<int>, a: nat)
    requires AlignmentShape(version, pos) && a <= |pos| && |pos| >= 2
    ensures var n := |pos|;
            AlignWeight(Size(version), pos, a)
            == if a == 0 then 0
               else if a < n then 20 * (n - 2) + (a - 1) * (25 * n - 5)
               else 20 * (n - 2) + (n - 2) * (25 * n - 5) + 25 * (n - 1)
  {
    hide RowWeight;
    if a > 0 {
      AlignWeightForm(version, pos, a - 1);
      RowWeightForm(version, pos, a - 1, |pos|);
    }
  }

  // ---- all function modules outside column 6 -------------------------------------------

  function FixedCover(size: nat): set<Cell>
    requires size >= 21
  {
    Rect(0, 6, 0, 8) + Rect(7, 1, 0, 8) + Rect(size - 8, 8, 0, 8)
    + Rect(0, 6, size - 8, 8) + Rect(7, 1, size - 8, 8)
    + Rect(8, size - 16, 6, 1)
    + Rect(8, 1, 0, 6) + Rect(8, 1, 7, 2) + Rect(7, 1, 8, 1) + Rect(0, 6, 8, 1)
    + Rect(size - 8, 8, 8, 1) + Rect(8, 1, size - 8, 8)
  }

  function VersionCover(version: Version): set<Cell> {
    if version < 7 then {} else Rect(Size(version) - 11, 3, 0, 6) + Rect(0, 6, Size(version) - 11, 3)
  }

  function Cover(version: Version): set<Cell> {
    var pos := AlignmentPositions(version);
    FixedCover(Size(version)) + AlignCover(Size(version), pos, |pos|) + VersionCover(version)
  }

  lemma FixedBound(size: nat)
    requires size >= 21
    ensures |FixedCover(size)| <= 191 + size
  {
    hide Rect;
    var a := Rect(0, 6, 0, 8) + Rect(7, 1, 0, 8);
    UnionBound(Rect(0, 6, 0, 8), Rect(7, 1, 0, 8));
    var b := a + Rect(size - 8, 8, 0, 8);
    UnionBound(a, Rect(size - 8, 8, 0, 8));
    var c := b + Rect(0, 6, size - 8, 8);
    UnionBound(b, Rect(0, 6, size - 8, 8));
    var d := c + Rect(7, 1, size - 8, 8);
    UnionBound(c, Rect(7, 1, size - 8, 8));
    var e := d + Rect(8, size - 16, 6, 1);
    UnionBound(d, Rect(8, size - 16, 6, 1));
    var f := e + Rect(8, 1, 0, 6);
    UnionBound(e, Rect(8, 1, 0, 6));
    var g := f + Rect(8, 1, 7, 2);
    UnionBound(f, Rect(8, 1, 7, 2));
    var h := g + Rect(7, 1, 8, 1);
    UnionBound(g, Rect(7, 1, 8, 1));
    var i := h + Rect(0, 6, 8, 1);
    UnionBound(h, Rect(0, 6, 8, 1));
    var j := i + Rect(size - 8, 8, 8, 1);
    UnionBound(i, Rect(size - 8, 8, 8, 1));
    UnionBound(j, Rect(8, 1, size - 8, 8));
  }

  lemma VersionBound(version: Version)
    ensures |VersionCover(version)| <= if version < 7 then 0 else 36
  {
    hide Rect;
    UnionBound(Rect(Size(version) - 11, 3, 0, 6), Rect(0, 6, Size(version) - 11, 3));
  }

  lemma FixedMember(version: Version, c: Cell)
    requires c.x != 6 && (InFinders(Size(version), c) || InTiming(Size(version), c) || InFormat(Size(version), c))
    ensures c in FixedCover(Size(version))
  {
    hide Rect;
    var size := Size(version);
    if InFinder(size, 3, 3, c) {
      if c.x < 6 {
        InRect(0, 6, 0, 8, c);
      } else {
        InRect(7, 1, 0, 8, c);
      }
    } else if InFinder(size, size - 4, 3, c) {
      InRect(size - 8, 8, 0, 8, c);
    } else if InFinder(size, 3, size - 4, c) {
      if c.x < 6 {
        InRect(0, 6, size - 8, 8, c);
      } else {
        InRect(7, 1, size - 8, 8, c);
      }
    } else if InTiming(size, c) {
      InRect(8, size - 16, 6, 1, c);
    } else if c.x == 8 {
      if c.y <= 5 {
        InRect(8, 1, 0, 6, c);
      } else if c.y <= 8 {
        InRect(8, 1, 7, 2, c);
      } else {
        InRect(8, 1, size - 8, 8, c);
      }
    } else if c.x == 7 {
      InRect(7, 1, 8, 1, c);
    } else if c.x <= 5 {
      InRect(0, 6, 8, 1, c);
    } else {
      InRect(size - 8, 8, 8, 1, c);
    }
  }

  lemma SquareMember(version: Version, px: int, py: int, c: Cell)
    requires !Skipped(Size(version), px, py) && InSquare(px, py, c) && c.x != 6
    requires px == 6 || px >= 10
    requires py == 6 || py >= 10
    requires py == 6 ==> 10 <= px <= Size(version) - 11
    ensures c in SquareCover(Size(version), px, py) || InTiming(Size(version), c)
  {
    hide Rect;
    if px == 6 {
      if c.x < 6 {
        InRect(4, 2, py - 2, 5, c);
      } else {
        InRect(7, 2, py - 2, 5, c);
      }
    } else if py == 6 {
      if c.y < 6 {
        InRect(px - 2, 5, 4, 2, c);
      } else if c.y > 6 {
        InRect(px - 2, 5, 7, 2, c);
      }
    } else {
      InRect(px - 2, 5, py - 2, 5, c);
    }
  }

  lemma AlignmentMember(version: Version, c: Cell)
    requires c.x != 6 && InAlignment(version, c)
    ensures c in Cover(version)
  {
    hide AlignmentPositions, SquareCover, InSquare, FixedCover, AlignCover;
    var pos, size := AlignmentPositions(version), Size(version);
    AlignmentHasShape(version);
    var px, py :| px in pos && py in pos && !Skipped(size, px, py) && InSquare(px, py, c);
    var a :| 0 <= a < |pos| && pos[a] == px;
    var b :| 0 <= b < |pos| && pos[b] == py;
    SquareMember(version, px, py, c);
    if c in SquareCover(size, px, py) {
      AlignMember(size, pos, |pos|, a, b, c);
    } else {
      FixedMember(version, c);
    }
  }

  lemma CoverMember(version: Version, c: Cell)
    requires c.x != 6 && IsFunction(version, c)
    ensures c in Cover(version)
  {
    hide AlignmentPositions, InAlignment, InFinders, InTiming, InFormat, FixedCover, AlignCover, Rect;
    var size := Size(version);
    if InAlignment(version, c) {
      AlignmentMember(version, c);
    } else if InVersion(version, c) {
      if c.y <= 5 {
        InRect(size - 11, 3, 0, 6, c);
      } else {
        InRect(0, 6, size - 11, 3, c);
      }
    } else {
      FixedMember(version, c);
    }
  }

  // ---- counting ----------------------------------------------------------------------------

  lemma {:induction false} ColumnsLength(size: nat, p: nat)
    ensures |Columns(size, p)| == 2 * size * p
  {
    if p > 0 {
      ColumnsLength(size, p - 1);
    }
  }

  function CellSet(cells: seq<Cell>): set<Cell> {
    set c | c in cells
  }

  /** A walk over distinct cells: free cells plus covered ones reach its length. */
  lemma {:induction false} FreeCount(version: Version, cells: seq<Cell>, cover: set<Cell>)
    requires forall i, j :: 0 <= i < j < |cells| ==> cells[i] != cells[j]
    requires forall c :: c in cells && IsFunction(version, c) ==> c in cover
    ensures |Free(version, cells)| + |cover * CellSet(cells)| >= |cells|
  {
    hide IsFunction;
    if cells != [] {
      var n := |cells| - 1;
      var init, c := cells[..n], cells[n];
      FreeCount(version, init, cover);
      assert cells == init + [c];
      FreeStep(version, init, c);
      assert CellSet(cells) == CellSet(init) + {c};
      if IsFunction(version, c) {
        assert cover * CellSet(cells) == cover * CellSet(init) + {c};
        assert c !in CellSet(init);
      } else {
        assert cover * CellSet(init) <= cover * CellSet(cells);
        SubsetSize(cover * CellSet(init), cover * CellSet(cells));
      }
    }
  }

  lemma {:induction false} ColumnsDistinct(size: nat, p: nat)
    ensures forall i, j :: 0 <= i < j < |Columns(size, p)| ==> Columns(size, p)[i] != Columns(size, p)[j]
  {
    if p > 0 {
      ColumnsDistinct(size, p - 1);
      PairsDistinct(size, p - 1, 2 * size);
      assert Walked(size, p - 1, 2 * size) == Columns(size, p);
    }
  }

  lemma {:induction false} PairsDistinct(size: nat, p: nat, t: nat)
    requires forall i, j :: 0 <= i < j < |Columns(size, p)| ==> Columns(size, p)[i] != Columns(size, p)[j]
    ensures var w := Walked(size, p, t);
            forall i, j :: 0 <= i < j < |w| ==> w[i] != w[j]
  {
    hide PairCell, Columns;
    if t == 0 {
      assert Walked(size, p, 0) == Columns(size, p);
    } else {
      PairsDistinct(size, p, t - 1);
      WalkedStep(size, p, t - 1);
      StepIsNew(size, p, t - 1);
    }
  }

  lemma {:induction false} ColumnsSkipSix(size: nat, p: nat, c: Cell)
    requires size % 2 == 1 && p <= PairCount(size) && c in Columns(size, p)
    ensures c.x != 6
  {
    if c in PairCells(size, p - 1, 2 * size) {
      var t :| 0 <= t < 2 * size && c == PairCells(size, p - 1, 2 * size)[t];
    } else {
      ColumnsSkipSix(size, p - 1, c);
    }
  }

  lemma CoverBound(version: Version)
    ensures var n := |AlignmentPositions(version)|;
            |Cover(version)| <= 191 + Size(version) + (if version < 7 then 0 else 36)
                                + (if version == 1 then 0 else 40 * (n - 2) + 25 * (n - 1) * (n - 1))
  {
    hide AlignmentPositions, FixedCover, AlignCover, VersionCover, AlignWeight;
    var pos, size := AlignmentPositions(version), Size(version);
    AlignmentHasShape(version);
    FixedBound(size);
    VersionBound(version);
    AlignBound(size, pos, |pos|);
    UnionBound(FixedCover(size), AlignCover(size, pos, |pos|));
    UnionBound(FixedCover(size) + AlignCover(size, pos, |pos|), VersionCover(version));
    if version == 1 {
      NoWeight(size, pos);
    } else {
      AlignWeightForm(version, pos, |pos|);
      Expand(|pos|);
    }
  }

  lemma NoWeight(size: int, pos: seq<int>)
    ensures AlignWeight(size, pos, 0) == 0
  {
  }

  lemma Expand(n: int)
    ensures 20 * (n - 2) + (n - 2) * (25 * n - 5) + 25 * (n - 1) == 40 * (n - 2) + 25 * (n - 1) * (n - 1)
  {
  }

  /** The arithmetic, version by version. */
  lemma Arithmetic(version: Version, n: int, size: int)
    requires size == Size(version) && n == version / 7 + 2
    ensures size * (size - 1)
         >= 191 + size + (if version < 7 then 0 else 36)
            + (if version == 1 then 0 else 40 * (n - 2) + 25 * (n - 1) * (n - 1))
            + 8 * TotalCodewords(version)
  {
  }

  lemma WalkLength(version: Version, size: int)
    requires size == Size(version)
    ensures |Zigzag(size)| == size * (size - 1)
  {
    hide Columns;
    var p := PairCount(size);
    ColumnsLength(size, p);
    assert 2 * p == size - 1;
    Regroup(size, p);
  }

  lemma Regroup(size: int, p: int)
    ensures 2 * size * p == size * (2 * p)
  {
  }

  lemma CoveredByWalk(version: Version)
    ensures |DataCells(version)| + |Cover(version)| >= |Zigzag(Size(version))|
  {
    hide IsFunction, AlignmentPositions, Cover, Columns, Free;
    var size := Size(version);
    var cells := Zigzag(size);
    ColumnsDistinct(size, PairCount(size));
    forall c | c in cells && IsFunction(version, c) ensures c in Cover(version) {
      ColumnsSkipSix(size, PairCount(size), c);
      CoverMember(version, c);
    }
    FreeCount(version, cells, Cover(version));
    SubsetSize(Cover(version) * CellSet(cells), Cover(version));
  }

  /** The free modules of every version hold all its codeword bits. */
  lemma CapacitySuffices(version: Version)
    ensures |DataCells(version)| >= 8 * TotalCodewords(version)
  {
    hide AlignmentPositions, Cover, TotalCodewords, DataCells, Zigzag;
    var size := Size(version);
    CoveredByWalk(version);
    WalkLength(version, size);
    CoverBound(version);
    AlignmentHasShape(version);
    Arithmetic(version, version / 7 + 2, size);
  }
}
