/** The modules of a QR symbol: function areas and the zigzag order of the data modules. */
module QrGeometry {
  import opened QrTables

  datatype Cell = Cell(x: int, y: int)

  function Size(version: Version): int {
    4 * version + 17
  }

  predicate Inside(size: int, c: Cell) {
    0 <= c.x < size && 0 <= c.y < size
  }

  /** Centre coordinates of the alignment patterns. */
  function AlignmentPositions(version: Version): seq<int> {
    if version == 1 then []
    else if version == 2 then [6, 18]
    else if version == 3 then [6, 22]
    else if version == 4 then [6, 26]
    else if version == 5 then [6, 30]
    else if version == 6 then [6, 34]
    else if version == 7 then [6, 22, 38]
    else if version == 8 then [6, 24, 42]
    else if version == 9 then [6, 26, 46]
    else if version == 10 then [6, 28, 50]
    else if version == 11 then [6, 30, 54]
    else if version == 12 then [6, 32, 58]
    else if version == 13 then [6, 34, 62]
    else if version == 14 then [6, 26, 46, 66]
    else if version == 15 then [6, 26, 48, 70]
    else if version == 16 then [6, 26, 50, 74]
    else if version == 17 then [6, 30, 54, 78]
    else if version == 18 then [6, 30, 56, 82]
    else if version == 19 then [6, 30, 58, 86]
    else if version == 20 then [6, 34, 62, 90]
    else if version == 21 then [6, 28, 50, 72, 94]
    else if version == 22 then [6, 26, 50, 74, 98]
    else if version == 23 then [6, 30, 54, 78, 102]
    else if version == 24 then [6, 28, 54, 80, 106]
    else if version == 25 then [6, 32, 58, 84, 110]
    else if version == 26 then [6, 30, 58, 86, 114]
    else if version == 27 then [6, 34, 62, 90, 118]
    else if version == 28 then [6, 26, 50, 74, 98, 122]
    else if version == 29 then [6, 30, 54, 78, 102, 126]
    else if version == 30 then [6, 26, 52, 78, 104, 130]
    else if version == 31 then [6, 30, 56, 82, 108, 134]
    else if version == 32 then [6, 34, 60, 86, 112, 138]
    else if version == 33 then [6, 30, 58, 86, 114, 142]
    else if version == 34 then [6, 34, 62, 90, 118, 146]
    else if version == 35 then [6, 30, 54, 78, 102, 126, 150]
    else if version == 36 then [6, 24, 50, 76, 102, 128, 154]
    else if version == 37 then [6, 28, 54, 80, 106, 132, 158]
    else if version == 38 then [6, 32, 58, 84, 110, 136, 162]
    else if version == 39 then [6, 26, 54, 82, 110, 138, 166]
    else [6, 30, 58, 86, 114, 142, 170]
  }

  /** First centre at 6, last at size - 7, the others clear of the finders' rows and columns. */
  ghost predicate AlignmentShape(version: Version, pos: seq<int>) {
    var n := |pos|;
    && n == (if version == 1 then 0 else version / 7 + 2)
    && (n > 0 ==> pos[0] == 6 && pos[n - 1] == Size(version) - 7)
    && (forall i :: 0 < i < n - 1 ==> 10 <= pos[i] <= Size(version) - 11)
  }

  lemma AlignmentShape1(version: Version)
    requires version <= 13
    ensures AlignmentShape(version, AlignmentPositions(version))
  {
  }

  lemma AlignmentShape2(version: Version)
    requires 13 < version <= 27
    ensures AlignmentShape(version, AlignmentPositions(version))
  {
  }

  lemma AlignmentShape3(version: Version)
    requires 27 < version
    ensures AlignmentShape(version, AlignmentPositions(version))
  {
  }

  lemma AlignmentHasShape(version: Version)
    ensures AlignmentShape(version, AlignmentPositions(version))
  {
    hide AlignmentPositions, AlignmentShape;
    if version <= 13 {
      AlignmentShape1(version);
    } else if version <= 27 {
      AlignmentShape2(version);
    } else {
      AlignmentShape3(version);
    }
  }

  /** Every pattern lies within the symbol. */
  lemma AlignmentInside(version: Version)
    ensures forall p :: p in AlignmentPositions(version) ==> 6 <= p <= Size(version) - 7
  {
    hide AlignmentPositions;
    AlignmentHasShape(version);
  }

  /** Neighbouring centres are far enough apart for their squares not to meet. */
  ghost predicate AlignmentGaps(pos: seq<int>) {
    forall i :: 0 <= i < |pos| - 1 ==> pos[i] + 5 <= pos[i + 1]
  }

  lemma AlignmentGaps1(version: Version)
    requires version <= 20
    ensures AlignmentGaps(AlignmentPositions(version))
  {
  }

  lemma AlignmentGaps2(version: Version)
    requires 20 < version <= 30
    ensures AlignmentGaps(AlignmentPositions(version))
  {
  }

  lemma AlignmentGaps3(version: Version)
    requires 30 < version
    ensures AlignmentGaps(AlignmentPositions(version))
  {
  }

  lemma {:induction false} GapsAdd(pos: seq<int>, i: nat, j: nat)
    requires AlignmentGaps(pos) && i < j < |pos|
    ensures pos[i] + 5 <= pos[j]
    decreases j - i
  {
    if i + 1 < j {
      GapsAdd(pos, i + 1, j);
    }
  }

  lemma CentresApart(version: Version, i: nat, j: nat)
    requires i < |AlignmentPositions(version)| && j < |AlignmentPositions(version)| && i != j
    ensures var pos := AlignmentPositions(version);
            pos[i] + 5 <= pos[j] || pos[j] + 5 <= pos[i]
  {
    hide AlignmentPositions, AlignmentGaps;
    if version <= 20 {
      AlignmentGaps1(version);
    } else if version <= 30 {
      AlignmentGaps2(version);
    } else {
      AlignmentGaps3(version);
    }
    if i < j {
      GapsAdd(AlignmentPositions(version), i, j);
    } else {
      GapsAdd(AlignmentPositions(version), j, i);
    }
  }

  // ---- function areas -------------------------------------------------------

  /** The 9 by 9 square around a finder centre, clipped to the symbol. */
  predicate InFinder(size: int, cx: int, cy: int, c: Cell) {
    Inside(size, c) && cx - 4 <= c.x <= cx + 4 && cy - 4 <= c.y <= cy + 4
  }

  predicate InFinders(size: int, c: Cell) {
    InFinder(size, 3, 3, c) || InFinder(size, size - 4, 3, c) || InFinder(size, 3, size - 4, c)
  }

  predicate InTiming(size: int, c: Cell) {
    (c.y == 6 && 8 <= c.x < size - 8) || (c.x == 6 && 8 <= c.y < size - 8)
  }

  /** Centres that would collide with a finder are skipped. */
  predicate Skipped(size: int, x: int, y: int) {
    (x <= 8 && y <= 8) || (x >= size - 9 && y <= 8) || (x <= 8 && y >= size - 9)
  }

  predicate InSquare(cx: int, cy: int, c: Cell) {
    cx - 2 <= c.x <= cx + 2 && cy - 2 <= c.y <= cy + 2
  }

  predicate InAlignment(version: Version, c: Cell) {
    exists px, py :: px in AlignmentPositions(version) && py in AlignmentPositions(version)
      && !Skipped(Size(version), px, py) && InSquare(px, py, c)
  }

  predicate InFormat(size: int, c: Cell) {
    || (c.x == 8 && (0 <= c.y <= 5 || c.y == 7 || c.y == 8 || size - 8 <= c.y < size))
    || (c.y == 8 && (0 <= c.x <= 5 || c.x == 7 || size - 8 <= c.x < size))
  }

  predicate InVersion(version: Version, c: Cell) {
    var size := Size(version);
    version >= 7 && ((size - 11 <= c.x <= size - 9 && 0 <= c.y <= 5)
                     || (size - 11 <= c.y <= size - 9 && 0 <= c.x <= 5))
  }

  predicate IsFunction(version: Version, c: Cell) {
    var size := Size(version);
    || InFinders(size, c)
    || InTiming(size, c)
    || InAlignment(version, c)
    || InFormat(size, c)
    || InVersion(version, c)
  }

  // ---- the zigzag -------------------------------------------------------------

  /** Right column of the p-th column pair; column 6 is stepped over. */
  function RightColumn(size: int, p: int): int {
    var r := size - 1 - 2 * p;
    if r <= 6 then r - 1 else r
  }

  function PairCount(size: int): int {
    (size - 1) / 2
  }

  /** `((right + 1) & 2) == 0` */
  predicate Upward(right: int) {
    (right + 1) % 4 < 2
  }

  /** Step t of a column pair: two modules per row, right one first. */
  function PairCell(size: int, p: int, t: nat): Cell {
    var right := RightColumn(size, p);
    Cell(right - t % 2, if Upward(right) then size - 1 - t / 2 else t / 2)
  }

  function PairCells(size: int, p: int, n: nat): (s: seq<Cell>)
    ensures |s| == n
  {
    seq(n, t requires 0 <= t < n => PairCell(size, p, t))
  }

  /** The first p column pairs. */
  function Columns(size: nat, p: nat): seq<Cell> {
    if p == 0 then [] else Columns(size, p - 1) + PairCells(size, p - 1, 2 * size)
  }

  /** The whole walk. */
  function Zigzag(size: nat): seq<Cell>
    requires size >= 1
  {
    Columns(size, PairCount(size))
  }

  function Free(version: Version, cells: seq<Cell>): (r: seq<Cell>)
    ensures |r| <= |cells|
  {
    if cells == [] then []
    else
      var c := cells[|cells| - 1];
      Free(version, cells[..|cells| - 1]) + (if IsFunction(version, c) then [] else [c])
  }

  /** The data modules in the order they are filled. */
  function DataCells(version: Version): seq<Cell> {
    Free(version, Zigzag(Size(version)))
  }

  // ---- the walk visits no module twice --------------------------------------------

  lemma PairCellInside(size: int, p: int, t: nat)
    requires size % 2 == 1 && size >= 21 && 0 <= p < PairCount(size) && t < 2 * size
    ensures Inside(size, PairCell(size, p, t))
  {
  }

  lemma {:induction false} ColumnsRight(size: nat, p: nat, c: Cell)
    requires 0 < p && c in Columns(size, p)
    ensures c.x >= RightColumn(size, p - 1) - 1
  {
    if c in PairCells(size, p - 1, 2 * size) {
    } else {
      ColumnsRight(size, p - 1, c);
    }
  }

  /** The cells before step t of column pair p. */
  function Walked(size: nat, p: nat, t: nat): seq<Cell> {
    Columns(size, p) + PairCells(size, p, t)
  }

  lemma StepIsNew(size: nat, p: nat, t: nat)
    ensures PairCell(size, p, t) !in Walked(size, p, t)
  {
    var c := PairCell(size, p, t);
    if c in Columns(size, p) {
      if p > 0 {
        ColumnsRight(size, p, c);
      }
    }
    forall u | 0 <= u < t ensures PairCell(size, p, u) != c {
      assert u == 2 * (u / 2) + u % 2 && t == 2 * (t / 2) + t % 2;
    }
  }

  lemma {:induction false} FreeMember(version: Version, cells: seq<Cell>, c: Cell)
    ensures c in Free(version, cells) <==> c in cells && !IsFunction(version, c)
  {
    hide IsFunction;
    if cells != [] {
      FreeMember(version, cells[..|cells| - 1], c);
      assert cells == cells[..|cells| - 1] + [cells[|cells| - 1]];
    }
  }

  lemma FreeStep(version: Version, cells: seq<Cell>, c: Cell)
    ensures Free(version, cells + [c]) == Free(version, cells) + (if IsFunction(version, c) then [] else [c])
  {
    hide IsFunction;
    assert (cells + [c])[..|cells|] == cells;
  }

  lemma WalkedStep(size: nat, p: nat, t: nat)
    ensures Walked(size, p, t + 1) == Walked(size, p, t) + [PairCell(size, p, t)]
  {
    hide PairCell;
    assert PairCells(size, p, t + 1) == PairCells(size, p, t) + [PairCell(size, p, t)];
  }

  lemma {:induction false} ColumnsInside(size: nat, p: nat, c: Cell)
    requires size % 2 == 1 && size >= 21 && p <= PairCount(size) && c in Columns(size, p)
    ensures Inside(size, c)
  {
    if c in PairCells(size, p - 1, 2 * size) {
      var t :| 0 <= t < 2 * size && c == PairCells(size, p - 1, 2 * size)[t];
      PairCellInside(size, p - 1, t);
    } else {
      ColumnsInside(size, p - 1, c);
    }
  }

  lemma DataCellsInside(version: Version, k: nat)
    requires k < |DataCells(version)|
    ensures Inside(Size(version), DataCells(version)[k])
    ensures !IsFunction(version, DataCells(version)[k])
  {
    hide Inside, IsFunction, Columns;
    var c := DataCells(version)[k];
    FreeMember(version, Zigzag(Size(version)), c);
    ColumnsInside(Size(version), PairCount(Size(version)), c);
  }

  // ---- every module is a function module or a data module -------------------------------------------

  /** The walk passes every module outside column 6. */
  lemma WalkCovers(size: nat, c: Cell)
    requires size % 2 == 1 && size >= 21 && Inside(size, c) && c.x != 6
    ensures c in Zigzag(size)
  {
    var p := if c.x > 6 then (size - 1 - c.x) / 2 else (size - 2 - c.x) / 2;
    var right := RightColumn(size, p);
    assert 0 <= p < PairCount(size) && (c.x == right || c.x == right - 1);
    var row := if Upward(right) then size - 1 - c.y else c.y;
    var t := 2 * row + (right - c.x);
    assert t / 2 == row && t % 2 == right - c.x;
    assert PairCell(size, p, t) == c;
    assert PairCells(size, p, 2 * size)[t] == c;
    ColumnsHold(size, p + 1, PairCount(size), c);
  }

  lemma {:induction false} ColumnsHold(size: nat, p: nat, q: nat, c: Cell)
    requires p <= q && c in Columns(size, p)
    ensures c in Columns(size, q)
    decreases q
  {
    if p < q {
      ColumnsHold(size, p, q - 1, c);
    }
  }

  lemma ColumnSixIsFunction(version: Version, c: Cell)
    requires Inside(Size(version), c) && c.x == 6
    ensures IsFunction(version, c)
  {
    hide InAlignment;
  }

  lemma EveryModule(version: Version, c: Cell)
    requires Inside(Size(version), c)
    ensures IsFunction(version, c) || c in DataCells(version)
  {
    hide IsFunction, Columns;
    if c.x == 6 {
      ColumnSixIsFunction(version, c);
    } else {
      WalkCovers(Size(version), c);
      FreeMember(version, Zigzag(Size(version)), c);
    }
  }
}
