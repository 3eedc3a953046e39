/**
 * Which modules of a symbol are function modules, as ISO/IEC 18004:2015 draws them, that the
 * encoder reserves exactly those, and that the rest is enough for all the codewords.
 */
module QrRegions {
  import opened Bits
  import opened QrVersions
  import opened QrPlacement
  import opened QrMatrix

  predicate InFinder(size: nat, x: Cell) {
    (x.row < 8 && x.col < 8) || (x.row < 8 && x.col >= size - 8) || (x.row >= size - 8 && x.col < 8)
  }

  predicate InTiming(size: nat, x: Cell) {
    (x.row == 6 && 8 <= x.col < size - 8) || (x.col == 6 && 8 <= x.row < size - 8)
  }

  predicate InFormat(size: nat, x: Cell) {
    (x.row == 8 && (x.col <= 8 || x.col >= size - 8)) || (x.col == 8 && (x.row <= 8 || x.row >= size - 8))
  }

  predicate InAlignment(centres: seq<nat>, i: nat, j: nat, x: Cell)
    requires i < |centres| && j < |centres|
  {
    !Skipped(|centres|, i, j) && Abs(x.row - centres[i]) <= 2 && Abs(x.col - centres[j]) <= 2
  }

  predicate InVersion(size: nat, x: Cell) {
    (0 <= x.row < 6 && size - 11 <= x.col < size - 8) || (0 <= x.col < 6 && size - 11 <= x.row < size - 8)
  }

  /** x belongs to a finder, the timing patterns, the format or version areas, or an alignment pattern. */
  ghost predicate IsFunction(version: nat, x: Cell)
    requires 1 <= version <= MAX_VERSION
  {
    var size, centres := SizeOf(version), Centres(version);
    && InSquare(x, size)
    && (InFinder(size, x) || InTiming(size, x) || InFormat(size, x) || (version >= 7 && InVersion(size, x))
        || exists i, j | 0 <= i < |centres| && 0 <= j < |centres| :: InAlignment(centres, i, j, x))
  }

  // --- the lists of cells that are drawn -------------------------------------------------------

  lemma {:induction false} TimingCellsAt(n: int)
    ensures forall x :: x in TimingCells(n) <==> (x.row == 6 && 8 <= x.col < n) || (x.col == 6 && 8 <= x.row < n)
    decreases n
  {
    if n > 8 {
      TimingCellsAt(n - 1);
    }
  }

  lemma {:induction false} FormatCellsAt(size: nat, n: nat)
    requires n <= 9 && size >= 17
    ensures forall x :: x in FormatCells(size, n) <==>
                        (x.row == 8 && 0 <= x.col < n) || (x.col == 8 && 0 <= x.row < n)
                        || (x.row == 8 && size - n <= x.col < size && size - 8 <= x.col)
                        || (x.col == 8 && size - n <= x.row < size && size - 8 <= x.row)
  {
    if n > 0 {
      FormatCellsAt(size, n - 1);
    }
  }

  lemma {:induction false} VersionCellsAt(size: nat, n: nat)
    requires n <= 18 && size >= 17
    ensures forall x :: x in VersionCells(size, n) <==> InVersion(size, x) && VersionBit(size, x) < n
  {
    if n > 0 {
      VersionCellsAt(size, n - 1);
      forall x: Cell ensures x in VersionCells(size, n) <==> InVersion(size, x) && VersionBit(size, x) < n {
        VersionCellAt(size, n - 1, x);
      }
    }
  }

  lemma VersionCellAt(size: nat, i: nat, x: Cell)
    requires i < 18 && size >= 17
    ensures x == Cell(i / 3, i % 3 + size - 11) || x == Cell(i % 3 + size - 11, i / 3)
            <==> InVersion(size, x) && VersionBit(size, x) == i
  {
  }

  /** x lies in an alignment pattern of the first i rows of centres or the first j columns of the next. */
  predicate CoveredTo(centres: seq<nat>, i: nat, j: nat, x: Cell)
    requires i < |centres| || (i == |centres| && j == 0)
    requires j <= |centres|
    decreases i, j
  {
    if j > 0 then CoveredTo(centres, i, j - 1, x) || InAlignment(centres, i, j - 1, x)
    else i > 0 && CoveredTo(centres, i - 1, |centres|, x)
  }

  lemma {:induction false} CoveredBySome(centres: seq<nat>, i: nat, j: nat, x: Cell)
    requires i < |centres| || (i == |centres| && j == 0)
    requires j <= |centres|
    ensures CoveredTo(centres, i, j, x) ==>
              exists a, b | 0 <= a < |centres| && 0 <= b < |centres| :: InAlignment(centres, a, b, x)
    decreases i, j
  {
    if j > 0 {
      CoveredBySome(centres, i, j - 1, x);
    } else if i > 0 {
      CoveredBySome(centres, i - 1, |centres|, x);
    }
  }

  lemma {:induction false} SomeCovers(centres: seq<nat>, a: nat, b: nat, i: nat, j: nat, x: Cell)
    requires a < |centres| && b < |centres| && InAlignment(centres, a, b, x)
    requires i < |centres| || (i == |centres| && j == 0)
    requires j <= |centres| && (a < i || (a == i && b < j))
    ensures CoveredTo(centres, i, j, x)
    decreases i, j
  {
    if j > 0 {
      if !(a == i && b == j - 1) {
        SomeCovers(centres, a, b, i, j - 1, x);
      }
    } else {
      SomeCovers(centres, a, b, i - 1, |centres|, x);
    }
  }

  lemma {:induction false} MarkAlignmentsAt(fixed: set<Cell>, size: nat, centres: seq<nat>, i: nat, j: nat, x: Cell)
    requires i < |centres| || (i == |centres| && j == 0)
    requires j <= |centres|
    ensures x in MarkAlignments(fixed, size, centres, i, j) <==>
            x in fixed || (InSquare(x, size) && CoveredTo(centres, i, j, x))
    decreases i, j
  {
    if j > 0 {
      MarkAlignmentsAt(fixed, size, centres, i, j - 1, x);
      var centre := Cell(centres[i], centres[j - 1]);
      MarkAt(MarkAlignments(fixed, size, centres, i, j - 1), AlignmentCells(size, centre));
      AlignmentCellsAt(size, centre, x);
    } else if i > 0 {
      MarkAlignmentsAt(fixed, size, centres, i - 1, |centres|, x);
    }
  }

  lemma AlignmentCellsAt(size: nat, centre: Cell, x: Cell)
    ensures x in AlignmentCells(size, centre) <==>
            InSquare(x, size) && Abs(x.row - centre.row) <= 2 && Abs(x.col - centre.col) <= 2
  {
    RasterCells(size, centre.row - 2, centre.col - 2, 5, 5, 0);
  }

  lemma FinderCellsAt(size: nat, top: int, left: int, x: Cell)
    ensures x in FinderCells(size, top, left) <==>
            InSquare(x, size) && top - 1 <= x.row <= top + 7 && left - 1 <= x.col <= left + 7
  {
    RasterCells(size, top - 1, left - 1, 9, 9, 0);
  }

  lemma FinderMarks(size: nat, x: Cell)
    requires size >= 17
    ensures x in Mark(Mark(Mark({}, FinderCells(size, 0, 0)), FinderCells(size, 0, size - 7)),
                      FinderCells(size, size - 7, 0))
            <==> InSquare(x, size) && InFinder(size, x)
  {
    var a, b, c := FinderCells(size, 0, 0), FinderCells(size, 0, size - 7), FinderCells(size, size - 7, 0);
    MarkAt({}, a);
    MarkAt(Mark({}, a), b);
    MarkAt(Mark(Mark({}, a), b), c);
    FinderCellsAt(size, 0, 0, x);
    FinderCellsAt(size, 0, size - 7, x);
    FinderCellsAt(size, size - 7, 0, x);
  }

  lemma PatternCellsAt(size: nat, centres: seq<nat>, x: Cell)
    requires size >= 21
    ensures x in PatternCells(size, centres) <==>
            InSquare(x, size) && (InFinder(size, x) || InTiming(size, x) || InFormat(size, x)
                                  || CoveredTo(centres, |centres|, 0, x))
  {
    hide TimingCells, Raster, InFormat, InFinder, Mark, FormatCells, MarkAlignments, InAlignment;
    var a, b, c := FinderCells(size, 0, 0), FinderCells(size, 0, size - 7), FinderCells(size, size - 7, 0);
    var finders := Mark(Mark(Mark({}, a), b), c);
    FinderMarks(size, x);
    TimingCellsAt(size - 8);
    MarkAt(finders, TimingCells(size - 8));
    var timed := Mark(finders, TimingCells(size - 8));
    MarkAlignmentsAt(timed, size, centres, |centres|, 0, x);
    var aligned := MarkAlignments(timed, size, centres, |centres|, 0);
    FormatMarks(aligned, size, x);
  }

  lemma FormatMarks(fixed: set<Cell>, size: nat, x: Cell)
    requires size >= 21
    ensures x in Mark(Mark(fixed, FormatCells(size, 9)), [Cell(size - 8, 8)]) <==>
            x in fixed || (InSquare(x, size) && InFormat(size, x))
  {
    FormatCellsAt(size, 9);
    MarkAt(fixed, FormatCells(size, 9));
    MarkAt(Mark(fixed, FormatCells(size, 9)), [Cell(size - 8, 8)]);
  }

  /** The encoder reserves exactly the function modules. */
  lemma ReservesFunctionModules(version: nat, x: Cell)
    requires 1 <= version <= MAX_VERSION
    ensures x in FunctionCells(version) <==> IsFunction(version, x)
  {
    var size, centres := SizeOf(version), Centres(version);
    PatternCellsAt(size, centres, x);
    CoveredBySome(centres, |centres|, 0, x);
    if exists i, j | 0 <= i < |centres| && 0 <= j < |centres| :: InAlignment(centres, i, j, x) {
      var i, j :| 0 <= i < |centres| && 0 <= j < |centres| && InAlignment(centres, i, j, x);
      SomeCovers(centres, i, j, |centres|, 0, x);
    }
    VersionCellsAt(size, 18);
    MarkAt(PatternCells(size, centres), VersionCells(size, 18));
  }
}
