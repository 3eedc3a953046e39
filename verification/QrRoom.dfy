/** The modules left free by the function patterns are enough for every codeword of the version. */
module QrRoom {
  import opened Bits
  import opened QrVersions
  import opened QrPlacement
  import opened QrMatrix
  import opened QrRegions

  /** The cells of a rectangle. */
  function Rect(top: int, left: int, height: nat, width: nat): set<Cell> {
    RectStart(top, left, width, height, 0)
  }

  /** The first m rows of a rectangle and the first n cells of the next. */
  function RectStart(top: int, left: int, width: nat, m: nat, n: nat): set<Cell>
    decreases m, n, top, left
  {
    if n > 0 then RectStart(top, left, width, m, n - 1) + {Cell(top + m, left + n - 1)}
    else if m > 0 then RectStart(top, left, width, m - 1, width)
    else {}
  }

  lemma {:induction false} RectStartAt(top: int, left: int, width: nat, m: nat, n: nat, x: Cell)
    requires n <= width
    ensures x in RectStart(top, left, width, m, n) <==>
            left <= x.col < left + width && (top <= x.row < top + m || (x.row == top + m && x.col < left + n))
    decreases m, n
  {
    if n > 0 {
      RectStartAt(top, left, width, m, n - 1, x);
    } else if m > 0 {
      RectStartAt(top, left, width, m - 1, width, x);
    }
  }

  lemma InRect(top: int, left: int, height: nat, width: nat, x: Cell)
    ensures x in Rect(top, left, height, width) <==> top <= x.row < top + height && left <= x.col < left + width
  {
    RectStartAt(top, left, width, height, 0, x);
  }

  lemma {:induction false} RectStartSize(top: int, left: int, width: nat, m: nat, n: nat)
    requires n <= width
    ensures |RectStart(top, left, width, m, n)| == m * width + n
    decreases m, n
  {
    if n > 0 {
      RectStartSize(top, left, width, m, n - 1);
      RectStartAt(top, left, width, m, n - 1, Cell(top + m, left + n - 1));
    } else if m > 0 {
      RectStartSize(top, left, width, m - 1, width);
      MoreRows(m, width);
    }
  }

  lemma RectSize(top: int, left: int, height: nat, width: nat)
    ensures |Rect(top, left, height, width)| == height * width
  {
    RectStartSize(top, left, width, height, 0);
  }

  lemma MoreRows(height: nat, width: nat)
    requires height > 0
    ensures height * width == width + (height - 1) * width
  {
  }

  lemma UnionSize<T>(a: set<T>, b: set<T>)
    ensures |a + b| <= |a| + |b|
  {
    assert a + b == a + (b - a);
    assert |b - a| <= |b| by { SubsetSize(b - a, b); }
  }

  lemma SubsetSize<T>(a: set<T>, b: set<T>)
    requires a <= b
    ensures |a| <= |b|
  {
    assert b == a + (b - a);
  }

  /** The cells of an alignment pattern outside row 6 and column 6, and how many they are at most. */
  function Piece(row: int, col: int): set<Cell> {
    if row == 6 then Rect(4, col - 2, 2, 5) + Rect(7, col - 2, 2, 5)
    else if col == 6 then Rect(row - 2, 4, 5, 2) + Rect(row - 2, 7, 5, 2)
    else Rect(row - 2, col - 2, 5, 5)
  }

  lemma PieceCells(row: int, col: int, x: Cell)
    ensures Abs(x.row - row) <= 2 && Abs(x.col - col) <= 2 && x.row != 6 && x.col != 6 ==> x in Piece(row, col)
  {
    hide Rect;
    if row == 6 {
      InRect(4, col - 2, 2, 5, x);
      InRect(7, col - 2, 2, 5, x);
    } else if col == 6 {
      InRect(row - 2, 4, 5, 2, x);
      InRect(row - 2, 7, 5, 2, x);
    } else {
      InRect(row - 2, col - 2, 5, 5, x);
    }
  }

  lemma PieceSize(row: int, col: int)
    ensures |Piece(row, col)| <= if row == 6 || col == 6 then 20 else 25
  {
    RectSize(4, col - 2, 2, 5);
    RectSize(7, col - 2, 2, 5);
    UnionSize(Rect(4, col - 2, 2, 5), Rect(7, col - 2, 2, 5));
    RectSize(row - 2, 4, 5, 2);
    RectSize(row - 2, 7, 5, 2);
    UnionSize(Rect(row - 2, 4, 5, 2), Rect(row - 2, 7, 5, 2));
    RectSize(row - 2, col - 2, 5, 5);
  }

  function Pieces(centres: seq<nat>, i: nat, j: nat): set<Cell>
    requires i < |centres| || (i == |centres| && j == 0)
    requires j <= |centres|
    decreases i, j
  {
    if j > 0 then
      if Skipped(|centres|, i, j - 1) then Pieces(centres, i, j - 1)
      else Pieces(centres, i, j - 1) + Piece(centres[i], centres[j - 1])
    else if i > 0 then Pieces(centres, i - 1, |centres|)
    else {}
  }

  /** An upper bound on the modules of `count` times `count` centres, the first of which is 6. */
  function PiecesBound(count: nat, i: nat, j: nat): nat
    requires j <= count
    decreases i, j
  {
    if j > 0 then
      PiecesBound(count, i, j - 1) + if Skipped(count, i, j - 1) then 0 else if i == 0 || j == 1 then 20 else 25
    else if i > 0 then PiecesBound(count, i - 1, count)
    else 0
  }

  lemma {:induction false} PiecesCells(centres: seq<nat>, i: nat, j: nat, x: Cell)
    requires i < |centres| || (i == |centres| && j == 0)
    requires j <= |centres|
    requires CoveredTo(centres, i, j, x) && x.row != 6 && x.col != 6
    ensures x in Pieces(centres, i, j)
    decreases i, j
  {
    if j > 0 {
      if CoveredTo(centres, i, j - 1, x) {
        PiecesCells(centres, i, j - 1, x);
      } else {
        PieceCells(centres[i], centres[j - 1], x);
      }
    } else {
      PiecesCells(centres, i - 1, |centres|, x);
    }
  }

  lemma {:induction false} PiecesSize(centres: seq<nat>, i: nat, j: nat)
    requires i < |centres| || (i == |centres| && j == 0)
    requires j <= |centres|
    requires centres != [] ==> centres[0] == 6
    ensures |Pieces(centres, i, j)| <= PiecesBound(|centres|, i, j)
    decreases i, j
  {
    hide Piece;
    if j > 0 {
      PiecesSize(centres, i, j - 1);
      PieceAdded(Pieces(centres, i, j - 1), centres[i], centres[j - 1]);
    } else if i > 0 {
      PiecesSize(centres, i - 1, |centres|);
    }
  }

  lemma PieceAdded(rest: set<Cell>, row: int, col: int)
    ensures |rest + Piece(row, col)| <= |rest| + if row == 6 || col == 6 then 20 else 25
  {
    hide Piece;
    PieceSize(row, col);
    UnionSize(rest, Piece(row, col));
  }

  lemma PiecesBounds()
    ensures PiecesBound(0, 0, 0) == 0 && PiecesBound(2, 2, 0) == 25
    ensures PiecesBound(3, 3, 0) == 140 && PiecesBound(4, 4, 0) == 305
  {
    assert PiecesBound(3, 1, 0) == 20 && PiecesBound(3, 2, 0) == 90;
    assert PiecesBound(4, 1, 0) == 40;
    assert PiecesBound(4, 2, 0) == 135;
    assert PiecesBound(4, 3, 0) == 230;
  }

  /** The three corners with their format areas, and the rest of row 6 and column 6. */
  function Frame(size: nat): set<Cell>
    requires size >= 21
  {
    Rect(0, 0, 9, 9) + Rect(0, size - 8, 9, 8) + Rect(size - 8, 0, 8, 9)
    + Rect(6, 9, 1, size - 17) + Rect(9, 6, size - 17, 1)
  }

  lemma FrameCells(size: nat, x: Cell)
    requires size >= 21 && InSquare(x, size)
    requires InFinder(size, x) || InFormat(size, x) || x.row == 6 || x.col == 6
    ensures x in Frame(size)
  {
    InRect(0, 0, 9, 9, x);
    InRect(0, size - 8, 9, 8, x);
    InRect(size - 8, 0, 8, 9, x);
    InRect(6, 9, 1, size - 17, x);
    InRect(9, 6, size - 17, 1, x);
  }

  lemma FrameSize(size: nat)
    requires size >= 21
    ensures |Frame(size)| <= 225 + 2 * (size - 17)
  {
    var a, b, c, d, e := Rect(0, 0, 9, 9), Rect(0, size - 8, 9, 8), Rect(size - 8, 0, 8, 9), Rect(6, 9, 1, size - 17),
                         Rect(9, 6, size - 17, 1);
    RectSize(0, 0, 9, 9);
    RectSize(0, size - 8, 9, 8);
    RectSize(size - 8, 0, 8, 9);
    RectSize(6, 9, 1, size - 17);
    RectSize(9, 6, size - 17, 1);
    UnionSize(a, b);
    UnionSize(a + b, c);
    UnionSize(a + b + c, d);
    UnionSize(a + b + c + d, e);
  }

  function VersionAreas(size: nat): set<Cell>
    requires size >= 21
  {
    Rect(0, size - 11, 6, 3) + Rect(size - 11, 0, 3, 6)
  }

  lemma VersionAreasAt(size: nat, x: Cell)
    requires size >= 21 && InVersion(size, x)
    ensures x in VersionAreas(size)
  {
    InRect(0, size - 11, 6, 3, x);
    InRect(size - 11, 0, 3, 6, x);
  }

  lemma VersionAreasSize(size: nat)
    requires size >= 21
    ensures |VersionAreas(size)| <= 36
  {
    RectSize(0, size - 11, 6, 3);
    RectSize(size - 11, 0, 3, 6);
    UnionSize(Rect(0, size - 11, 6, 3), Rect(size - 11, 0, 3, 6));
  }

  lemma PatternCellsCovered(size: nat, centres: seq<nat>)
    requires size >= 21
    ensures PatternCells(size, centres) <= Frame(size) + Pieces(centres, |centres|, 0)
  {
    forall x | x in PatternCells(size, centres) ensures x in Frame(size) + Pieces(centres, |centres|, 0) {
      PatternCellsAt(size, centres, x);
      if InFinder(size, x) || InFormat(size, x) || x.row == 6 || x.col == 6 {
        FrameCells(size, x);
      } else {
        PiecesCells(centres, |centres|, 0, x);
      }
    }
  }

  lemma VersionCellsCovered(size: nat, cells: set<Cell>)
    requires size >= 21
    ensures Mark(cells, VersionCells(size, 18)) <= cells + VersionAreas(size)
  {
    VersionCellsAt(size, 18);
    MarkAt(cells, VersionCells(size, 18));
    forall x | x in VersionCells(size, 18) ensures x in VersionAreas(size) {
      VersionAreasAt(size, x);
    }
  }

  /** A bound on the function modules of a version with `count` alignment coordinates. */
  function CoverBound(version: nat, count: nat): nat {
    225 + 8 * version + PiecesBound(count, count, 0) + if version >= 7 then 36 else 0
  }

  lemma PatternCellsSize(size: nat, centres: seq<nat>)
    requires size >= 21 && (centres != [] ==> centres[0] == 6)
    ensures |PatternCells(size, centres)| <= 225 + 2 * (size - 17) + PiecesBound(|centres|, |centres|, 0)
  {
    var frame, pieces := Frame(size), Pieces(centres, |centres|, 0);
    PatternCellsCovered(size, centres);
    SubsetSize(PatternCells(size, centres), frame + pieces);
    UnionSize(frame, pieces);
    FrameSize(size);
    PiecesSize(centres, |centres|, 0);
  }

  lemma CoverSize(version: nat)
    requires 1 <= version <= MAX_VERSION
    ensures |FunctionCells(version)| <= CoverBound(version, |Centres(version)|)
  {
    var size, centres := SizeOf(version), Centres(version);
    var cells := PatternCells(size, centres);
    PatternCellsSize(size, centres);
    VersionCellsCovered(size, cells);
    SubsetSize(Mark(cells, VersionCells(size, 18)), cells + VersionAreas(size));
    UnionSize(cells, VersionAreas(size));
    VersionAreasSize(size);
  }

  /** All the codewords a version holds, data and check (ISO/IEC 18004:2015, Table 1). */
  function TotalTable(version: nat): nat
    requires 1 <= version <= MAX_VERSION
  {
    match version
    case 1 => 26 case 2 => 44 case 3 => 70 case 4 => 100 case 5 => 134
    case 6 => 172 case 7 => 196 case 8 => 242 case 9 => 292 case 10 => 346
    case 11 => 404 case 12 => 466 case 13 => 532 case 14 => 581 case _ => 655
  }

  /** The bound and the bits of all codewords together fit into the square. */
  lemma CodewordsFit(version: nat)
    requires 1 <= version <= MAX_VERSION
    ensures CoverBound(version, |Centres(version)|) + 8 * TotalTable(version) <= SizeOf(version) * SizeOf(version)
  {
    PiecesBounds();
  }

  lemma ReservedFits(version: nat)
    requires 1 <= version <= MAX_VERSION
    ensures |FunctionCells(version)| + 8 * TotalTable(version) <= |Rect(0, 0, SizeOf(version), SizeOf(version))|
  {
    CoverSize(version);
    CodewordsFit(version);
    RectSize(0, 0, SizeOf(version), SizeOf(version));
  }

  lemma {:induction false} DistinctSize<T>(s: seq<T>, t: set<T>)
    requires Distinct(s) && forall x :: x in s <==> x in t
    ensures |s| == |t|
  {
    if s == [] {
      assert t == {};
    } else {
      var init, last := s[..|s| - 1], s[|s| - 1];
      assert s == init + [last];
      forall x ensures x in init <==> x in t - {last} {
      }
      DistinctSize(init, t - {last});
    }
  }

  lemma FreeSize(size: nat, reserved: set<Cell>, free: seq<Cell>)
    requires Distinct(free) && forall x: Cell :: x in free <==> InSquare(x, size) && x !in reserved
    ensures |free| + |reserved| >= |Rect(0, 0, size, size)|
  {
    var area := Rect(0, 0, size, size);
    forall x: Cell ensures x in area <==> InSquare(x, size) {
      InRect(0, 0, size, size, x);
    }
    DistinctSize(free, area - reserved);
    UnionSize(area - reserved, reserved);
    SubsetSize(area, area - reserved + reserved);
  }

  lemma ColumnSixReserved(version: nat)
    requires 1 <= version <= MAX_VERSION
    ensures forall r | 0 <= r < SizeOf(version) :: Cell(r, 6) in FunctionCells(version)
  {
    forall r | 0 <= r < SizeOf(version) ensures Cell(r, 6) in FunctionCells(version) {
      ReservesFunctionModules(version, Cell(r, 6));
    }
  }

  /** The zigzag visits each unreserved module once, and at least `bits` of them. */
  ghost predicate Enough(size: nat, reserved: set<Cell>, bits: nat) {
    var free := Free(Zigzag(size), reserved);
    && Distinct(free)
    && (forall x: Cell :: x in free <==> InSquare(x, size) && x !in reserved)
    && |free| >= bits
  }

  lemma RoomIn(size: nat, reserved: set<Cell>, bits: nat)
    requires size % 2 == 1 && size >= 7
    requires forall r | 0 <= r < size :: Cell(r, 6) in reserved
    requires |reserved| + bits <= |Rect(0, 0, size, size)|
    ensures Enough(size, reserved, bits)
  {
    VisitsEachFreeModuleOnce(size, reserved);
    FreeSize(size, reserved, Free(Zigzag(size), reserved));
  }

  lemma OddSize(version: nat)
    requires 1 <= version
    ensures SizeOf(version) % 2 == 1 && SizeOf(version) >= 21
  {
    TwiceAndOne(2 * version + 8);
    assert SizeOf(version) == 2 * (2 * version + 8) + 1;
  }

  lemma TwiceAndOne(k: nat)
    ensures (2 * k + 1) % 2 == 1
  {
  }

  /** The modules the zigzag fills are enough for all the codewords of the version. */
  lemma RoomForCodewords(version: nat)
    requires 1 <= version <= MAX_VERSION
    ensures Enough(SizeOf(version), FunctionCells(version), 8 * TotalTable(version))
  {
    OddSize(version);
    ColumnSixReserved(version);
    ReservedFits(version);
    RoomIn(SizeOf(version), FunctionCells(version), 8 * TotalTable(version));
  }
}
