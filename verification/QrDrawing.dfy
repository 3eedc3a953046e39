/** The function patterns show what ISO/IEC 18004:2015 asks for, in the base image and in every finished symbol. */
module QrDrawing {
  import opened Bits
  import opened QrVersions
  import opened QrPlacement
  import opened QrMatrix
  import opened QrRegions
  import opened QrRoom
  import opened QrFormat

  /** A module of the timing patterns that lies in the format area. */
  predicate IsTimingCorner(x: Cell) {
    x == Cell(6, 8) || x == Cell(8, 6)
  }

  /** The module shows the value v. */
  predicate Shows(image: Image, x: Cell, v: Bit) {
    x in image && image[x] == v
  }

  /** Timing: dark at even places. */
  predicate ShowsTiming(image: Image, size: nat, x: Cell) {
    InTiming(size, x) ==> Shows(image, x, if (x.row + x.col) % 2 == 0 then 1 else 0)
  }

  predicate ShowsFinders(image: Image, size: nat, x: Cell) {
    && (x.row < 8 && x.col < 8 ==> Shows(image, x, Value(Finder(Cell(3, 3)), x)))
    && (x.row < 8 && x.col >= size - 8 ==> Shows(image, x, Value(Finder(Cell(3, size - 4)), x)))
    && (x.row >= size - 8 && x.col < 8 ==> Shows(image, x, Value(Finder(Cell(size - 4, 3)), x)))
  }

  ghost predicate ShowsAlignments(image: Image, centres: seq<nat>, x: Cell) {
    forall i, j | 0 <= i < |centres| && 0 <= j < |centres| && InAlignment(centres, i, j, x) ::
      Shows(image, x, Value(Alignment(Cell(centres[i], centres[j])), x))
  }

  /** The module shows what every pattern that it belongs to asks for. */
  ghost predicate ShowsPatterns(image: Image, version: nat, bits: nat, x: Cell)
    requires 1 <= version <= MAX_VERSION
  {
    && ShowsTiming(image, SizeOf(version), x)
    && ShowsFinders(image, SizeOf(version), x)
    && ShowsAlignments(image, Centres(version), x)
    && (version >= 7 && InVersion(SizeOf(version), x) ==>
          Shows(image, x, BitAt(bits, VersionBit(SizeOf(version), x))))
  }

  /** Every function module but those of the format information. */
  predicate IsPatternModule(size: nat, x: Cell) {
    InSquare(x, size) && (!InFormat(size, x) || IsTimingCorner(x))
  }

  // --- the patterns as the standard draws them -------------------------------------------------

  /** The upper left finder and its separator; the other two are its mirror images. */
  const FINDER := ["#######.",
                   "#.....#.",
                   "#.###.#.",
                   "#.###.#.",
                   "#.###.#.",
                   "#.....#.",
                   "#######.",
                   "........"]

  const ALIGNMENT := ["#####",
                      "#...#",
                      "#.#.#",
                      "#...#",
                      "#####"]

  /** The module is as dark as row r and column c of the picture. */
  predicate ShowsPicture(image: Image, x: Cell, picture: seq<string>, r: int, c: int)
    requires 0 <= r < |picture| && 0 <= c < |picture[r]|
  {
    Shows(image, x, if picture[r][c] == '#' then 1 else 0)
  }

  predicate FindersDrawn(image: Image, size: nat, x: Cell)
    requires 0 <= x.row < size && 0 <= x.col < size
  {
    && (x.row < 8 && x.col < 8 ==> ShowsPicture(image, x, FINDER, x.row, x.col))
    && (x.row < 8 && x.col >= size - 8 ==> ShowsPicture(image, x, FINDER, x.row, size - 1 - x.col))
    && (x.row >= size - 8 && x.col < 8 ==> ShowsPicture(image, x, FINDER, size - 1 - x.row, x.col))
  }

  /** An alignment pattern at every pair of centres but the three at the finders. */
  ghost predicate AlignmentsDrawn(image: Image, centres: seq<nat>, x: Cell) {
    forall i, j | 0 <= i < |centres| && 0 <= j < |centres|
                  && (i, j) !in {(0, 0), (0, |centres| - 1), (|centres| - 1, 0)}
                  && centres[i] - 2 <= x.row <= centres[i] + 2 && centres[j] - 2 <= x.col <= centres[j] + 2 ::
      ShowsPicture(image, x, ALIGNMENT, x.row - centres[i] + 2, x.col - centres[j] + 2)
  }

  /** Bit i of the version stands beside the upper right finder and, mirrored, above the lower left one. */
  predicate VersionDrawn(image: Image, size: nat, bits: nat, x: Cell) {
    forall i | 0 <= i < 18 && (x == Cell(i / 3, size - 11 + i % 3) || x == Cell(size - 11 + i % 3, i / 3)) ::
      Shows(image, x, BitAt(bits, i))
  }

  /** The module is as the standard draws it: finders, timing, alignment patterns and version information. */
  ghost predicate IsDrawn(image: Image, version: nat, bits: nat, x: Cell)
    requires 1 <= version <= MAX_VERSION && 0 <= x.row < 4 * version + 17 && 0 <= x.col < 4 * version + 17
  {
    var size := 4 * version + 17;
    && FindersDrawn(image, size, x)
    && ((x.row == 6 && 8 <= x.col < size - 8) || (x.col == 6 && 8 <= x.row < size - 8) ==>
          Shows(image, x, if (x.row + x.col) % 2 == 0 then 1 else 0))
    && AlignmentsDrawn(image, Centres(version), x)
    && (version >= 7 ==> VersionDrawn(image, size, bits, x))
  }

  lemma FinderIs(r: nat, c: nat)
    requires r < 8 && c < 8
    ensures Value(Finder(Cell(3, 3)), Cell(r, c)) == if FINDER[r][c] == '#' then 1 else 0
  {
  }

  /** A finder seen from its own corner. */
  lemma FinderFolds(size: nat, x: Cell)
    ensures Value(Finder(Cell(3, size - 4)), x) == Value(Finder(Cell(3, 3)), Cell(x.row, size - 1 - x.col))
    ensures Value(Finder(Cell(size - 4, 3)), x) == Value(Finder(Cell(3, 3)), Cell(size - 1 - x.row, x.col))
  {
    RingFolds(size, x);
    hide Ring;
  }

  lemma RingFolds(size: nat, x: Cell)
    ensures Ring(Cell(3, size - 4), x) == Ring(Cell(3, 3), Cell(x.row, size - 1 - x.col))
    ensures Ring(Cell(size - 4, 3), x) == Ring(Cell(3, 3), Cell(size - 1 - x.row, x.col))
  {
    AbsFolds(x.col - (size - 4), size - 1 - x.col - 3);
    AbsFolds(x.row - (size - 4), size - 1 - x.row - 3);
    hide Abs;
  }

  lemma AbsFolds(a: int, b: int)
    ensures a == -b ==> Abs(a) == Abs(b)
  {
  }

  lemma AlignmentIs(centre: Cell, x: Cell)
    requires centre.row - 2 <= x.row <= centre.row + 2 && centre.col - 2 <= x.col <= centre.col + 2
    ensures Value(Alignment(centre), x) ==
            if ALIGNMENT[x.row - centre.row + 2][x.col - centre.col + 2] == '#' then 1 else 0
  {
  }

  lemma FindersAreDrawn(image: Image, size: nat, x: Cell)
    requires size >= 21 && 0 <= x.row < size && 0 <= x.col < size && ShowsFinders(image, size, x)
    ensures FindersDrawn(image, size, x)
  {
    hide Value;
    FinderFolds(size, x);
    if x.row < 8 && x.col < 8 {
      FinderIs(x.row, x.col);
    } else if x.row < 8 && x.col >= size - 8 {
      FinderIs(x.row, size - 1 - x.col);
    } else if x.row >= size - 8 && x.col < 8 {
      FinderIs(size - 1 - x.row, x.col);
    }
  }

  lemma AlignmentsAreDrawn(image: Image, centres: seq<nat>, x: Cell)
    requires ShowsAlignments(image, centres, x)
    ensures AlignmentsDrawn(image, centres, x)
  {
    hide Value;
    forall i, j | 0 <= i < |centres| && 0 <= j < |centres|
                  && (i, j) !in {(0, 0), (0, |centres| - 1), (|centres| - 1, 0)}
                  && centres[i] - 2 <= x.row <= centres[i] + 2 && centres[j] - 2 <= x.col <= centres[j] + 2
      ensures ShowsPicture(image, x, ALIGNMENT, x.row - centres[i] + 2, x.col - centres[j] + 2)
    {
      assert InAlignment(centres, i, j, x);
      AlignmentIs(Cell(centres[i], centres[j]), x);
    }
  }

  lemma VersionIsDrawn(image: Image, size: nat, bits: nat, x: Cell)
    requires size >= 45 && (InVersion(size, x) ==> Shows(image, x, BitAt(bits, VersionBit(size, x))))
    ensures VersionDrawn(image, size, bits, x)
  {
    forall i | 0 <= i < 18 && (x == Cell(i / 3, size - 11 + i % 3) || x == Cell(size - 11 + i % 3, i / 3))
      ensures Shows(image, x, BitAt(bits, i))
    {
      VersionCellAt(size, i, x);
    }
  }

  /** What is shown is what the standard draws. */
  lemma PatternsAreDrawn(image: Image, version: nat, bits: nat, x: Cell)
    requires 1 <= version <= MAX_VERSION && InSquare(x, SizeOf(version)) && ShowsPatterns(image, version, bits, x)
    ensures 0 <= x.row < 4 * version + 17 && 0 <= x.col < 4 * version + 17 && IsDrawn(image, version, bits, x)
  {
    hide ShowsFinders, FindersDrawn, ShowsAlignments, AlignmentsDrawn, VersionDrawn, InVersion, Centres;
    var size := SizeOf(version);
    FindersAreDrawn(image, size, x);
    AlignmentsAreDrawn(image, Centres(version), x);
    if version >= 7 {
      VersionIsDrawn(image, size, bits, x);
    }
  }

  // --- drawing them ----------------------------------------------------------------------------

  lemma DrawPoint(image: Image, p: Pattern, cells: seq<Cell>, x: Cell)
    ensures x in cells ==> Shows(Draw(image, p, cells), x, Value(p, x))
    ensures x !in cells && x in image ==> Shows(Draw(image, p, cells), x, image[x])
  {
    DrawAt(image, p, cells);
  }

  // --- where the alignment patterns are --------------------------------------------------------

  /** Centres are even, far from each other, and all but the outer ones far from the finders. */
  predicate Spread(centres: seq<nat>, size: nat) {
    && (forall k | 0 <= k < |centres| :: centres[k] % 2 == 0 && 6 <= centres[k] <= size - 7)
    && (forall a, b | 0 <= a < b < |centres| :: centres[a] + 10 <= centres[b])
    && (|centres| > 0 ==> centres[0] == 6)
  }

  lemma CentresSpread(version: nat)
    requires 1 <= version <= MAX_VERSION
    ensures Spread(Centres(version), SizeOf(version))
  {
  }

  lemma FarApart(centres: seq<nat>, size: nat, a: nat, b: nat)
    requires Spread(centres, size) && a < |centres| && b < |centres|
    ensures a == b || Abs(centres[a] as int - centres[b] as int) >= 10
  {
    if a < b {
      assert centres[a] + 10 <= centres[b];
    } else if b < a {
      assert centres[b] + 10 <= centres[a];
    }
  }

  /** An alignment pattern touches neither a finder, nor the version information, nor another one. */
  lemma AlignmentApart(centres: seq<nat>, size: nat, i: nat, j: nat, x: Cell)
    requires Spread(centres, size) && size >= 21 && i < |centres| && j < |centres| && InAlignment(centres, i, j, x)
    ensures InSquare(x, size) && !InFinder(size, x) && !InVersion(size, x)
    ensures forall a, b | 0 <= a < |centres| && 0 <= b < |centres| && InAlignment(centres, a, b, x) :: a == i && b == j
  {
    var last := |centres| - 1;
    assert i > 0 ==> centres[0] + 10 <= centres[i];
    assert j > 0 ==> centres[0] + 10 <= centres[j];
    assert i < last ==> centres[i] + 10 <= centres[last];
    assert j < last ==> centres[j] + 10 <= centres[last];
    forall a, b | 0 <= a < |centres| && 0 <= b < |centres| && InAlignment(centres, a, b, x) ensures a == i && b == j {
      FarApart(centres, size, a, i);
      FarApart(centres, size, b, j);
    }
  }

  /** On row 6 and column 6 an alignment pattern shows what the timing pattern does. */
  lemma AlignmentKeepsTiming(centres: seq<nat>, size: nat, i: nat, j: nat, x: Cell)
    requires Spread(centres, size) && i < |centres| && j < |centres|
    requires InAlignment(centres, i, j, x) && InTiming(size, x)
    ensures Value(Alignment(Cell(centres[i], centres[j])), x) == Value(Timing, x)
  {
    assert x.row == 6 ==> i == 0 by { assert i > 0 ==> centres[0] + 10 <= centres[i]; }
    assert x.col == 6 ==> j == 0 by { assert j > 0 ==> centres[0] + 10 <= centres[j]; }
    var centre := Cell(centres[i], centres[j]);
    if x.row == 6 {
      RowOfAlignment(centre.col, x.col);
    } else {
      RowOfAlignment(centre.row, x.row);
    }
  }

  lemma RowOfAlignment(c: nat, y: int)
    requires c % 2 == 0 && Abs(y - c) <= 2
    ensures Abs(y - c) == 1 <==> (6 + y) % 2 != 0
    ensures (6 + y) % 2 == (y + 6) % 2
  {
    assert y == c - 2 || y == c - 1 || y == c || y == c + 1 || y == c + 2;
  }

  /** What the alignment patterns leave at a module. */
  lemma {:induction false} AlignmentsAt(image: Image, size: nat, centres: seq<nat>, i: nat, j: nat, x: Cell)
    requires i < |centres| || (i == |centres| && j == 0)
    requires j <= |centres| && InSquare(x, size)
    ensures !CoveredTo(centres, i, j, x) && x in image ==>
              Shows(DrawAlignments(image, size, centres, i, j), x, image[x])
    ensures CoveredTo(centres, i, j, x) ==>
              exists a, b | 0 <= a < |centres| && 0 <= b < |centres| :: InAlignment(centres, a, b, x)
                && Shows(DrawAlignments(image, size, centres, i, j), x,
                         Value(Alignment(Cell(centres[a], centres[b])), x))
    decreases i, j
  {
    hide Value, Draw, AlignmentCells, InSquare, Skipped;
    if j > 0 {
      AlignmentsAt(image, size, centres, i, j - 1, x);
      if !Skipped(|centres|, i, j - 1) {
        var centre := Cell(centres[i], centres[j - 1]);
        DrawPoint(DrawAlignments(image, size, centres, i, j - 1), Alignment(centre), AlignmentCells(size, centre), x);
        AlignmentCellsAt(size, centre, x);
      }
    } else if i > 0 {
      AlignmentsAt(image, size, centres, i - 1, |centres|, x);
    }
  }

  // --- the base image --------------------------------------------------------------------------

  function Finders(size: nat): Image {
    Draw(Draw(Draw(Blank(size), Finder(Cell(3, 3)), FinderCells(size, 0, 0)),
              Finder(Cell(3, size - 4)), FinderCells(size, 0, size - 7)),
         Finder(Cell(size - 4, 3)), FinderCells(size, size - 7, 0))
  }

  lemma FindersAt(size: nat, x: Cell)
    requires size >= 21 && InSquare(x, size)
    ensures x in Finders(size) && ShowsFinders(Finders(size), size, x)
  {
    hide Value, Draw, FinderCells;
    var a, b, c := FinderCells(size, 0, 0), FinderCells(size, 0, size - 7), FinderCells(size, size - 7, 0);
    var first := Draw(Blank(size), Finder(Cell(3, 3)), a);
    var second := Draw(first, Finder(Cell(3, size - 4)), b);
    DrawPoint(Blank(size), Finder(Cell(3, 3)), a, x);
    DrawPoint(first, Finder(Cell(3, size - 4)), b, x);
    DrawPoint(second, Finder(Cell(size - 4, 3)), c, x);
    FinderCellsAt(size, 0, 0, x);
    FinderCellsAt(size, 0, size - 7, x);
    FinderCellsAt(size, size - 7, 0, x);
    AreaAt(size, x);
  }

  lemma AreaAt(size: nat, x: Cell)
    requires InSquare(x, size)
    ensures x in Blank(size)
  {
  }

  lemma TimingShows(x: Cell)
    ensures Value(Timing, x) == if (x.row + x.col) % 2 == 0 then 1 else 0
  {
  }

  /** The timing patterns and then the alignment patterns over the finders. */
  lemma AlignedAt(size: nat, centres: seq<nat>, x: Cell)
    requires size >= 21 && Spread(centres, size) && InSquare(x, size)
    ensures var timed := Draw(Finders(size), Timing, TimingCells(size - 8));
            var aligned := DrawAlignments(timed, size, centres, |centres|, 0);
            x in aligned && ShowsTiming(aligned, size, x) && ShowsFinders(aligned, size, x)
            && ShowsAlignments(aligned, centres, x)
  {
    hide Spread, TimingCells;
    TimingShows(x);
    var timed := Draw(Finders(size), Timing, TimingCells(size - 8));
    FindersAt(size, x);
    TimingCellsAt(size - 8);
    DrawPoint(Finders(size), Timing, TimingCells(size - 8), x);
    AlignmentsAt(timed, size, centres, |centres|, 0, x);
    CoveredBySome(centres, |centres|, 0, x);
    forall i, j | 0 <= i < |centres| && 0 <= j < |centres| && InAlignment(centres, i, j, x)
      ensures CoveredTo(centres, |centres|, 0, x) && !InFinder(size, x)
      ensures forall a, b | 0 <= a < |centres| && 0 <= b < |centres| && InAlignment(centres, a, b, x)  ::
                a == i && b == j
      ensures InTiming(size, x) ==> Value(Alignment(Cell(centres[i], centres[j])), x) == Value(Timing, x)
    {
      SomeCovers(centres, i, j, |centres|, 0, x);
      AlignmentApart(centres, size, i, j, x);
      if InTiming(size, x) {
        AlignmentKeepsTiming(centres, size, i, j, x);
      }
    }
  }

  /** A later step that leaves the module alone leaves what it shows. */
  lemma StillShows(before: Image, after: Image, size: nat, centres: seq<nat>, x: Cell)
    requires x in before && Shows(after, x, before[x])
    requires ShowsTiming(before, size, x) && ShowsFinders(before, size, x) && ShowsAlignments(before, centres, x)
    ensures ShowsTiming(after, size, x) && ShowsFinders(after, size, x) && ShowsAlignments(after, centres, x)
  {
    hide Value, InAlignment, InTiming;
  }

  /** Before the version information is drawn. */
  lemma PatternsShow(size: nat, centres: seq<nat>, x: Cell)
    requires size >= 21 && Spread(centres, size) && IsPatternModule(size, x)
    ensures var patterns := Patterns(Blank(size), size, centres);
            x in patterns && ShowsTiming(patterns, size, x) && ShowsFinders(patterns, size, x)
            && ShowsAlignments(patterns, centres, x)
  {
    hide Draw, DrawAlignments, ShowsTiming, ShowsFinders, ShowsAlignments;
    AlignedAt(size, centres, x);
    var aligned := DrawAlignments(Draw(Finders(size), Timing, TimingCells(size - 8)), size, centres, |centres|, 0);
    DrawPoint(aligned, Dark, [Cell(size - 8, 8)], x);
    StillShows(aligned, Patterns(Blank(size), size, centres), size, centres, x);
  }

  /** Every pattern module of the base image shows what it should. */
  lemma BaseShows(version: nat, bits: nat, x: Cell)
    requires 1 <= version <= MAX_VERSION && IsPatternModule(SizeOf(version), x)
    ensures x in BaseImage(version, bits) && ShowsPatterns(BaseImage(version, bits), version, bits, x)
  {
    hide Draw, Patterns, Centres;
    var size, centres := SizeOf(version), Centres(version);
    CentresSpread(version);
    PatternsShow(size, centres, x);
    if version >= 7 {
      VersionShows(Patterns(Blank(size), size, centres), centres, size, bits, x);
    }
  }

  lemma VersionShows(patterns: Image, centres: seq<nat>, size: nat, bits: nat, x: Cell)
    requires size >= 45 && Spread(centres, size) && InSquare(x, size) && x in patterns
    requires ShowsTiming(patterns, size, x) && ShowsFinders(patterns, size, x) && ShowsAlignments(patterns, centres, x)
    ensures var image := Draw(patterns, VersionInfo(size, bits), VersionCells(size, 18));
            && x in image && ShowsTiming(image, size, x) && ShowsFinders(image, size, x)
            && ShowsAlignments(image, centres, x)
            && (InVersion(size, x) ==> Shows(image, x, BitAt(bits, VersionBit(size, x))))
  {
    hide Draw, VersionBit;
    VersionCellsAt(size, 18);
    if InVersion(size, x) {
      VersionBitIsSmall(size, x);
    }
    DrawPoint(patterns, VersionInfo(size, bits), VersionCells(size, 18), x);
    forall i, j | 0 <= i < |centres| && 0 <= j < |centres| && InAlignment(centres, i, j, x)
      ensures !InVersion(size, x)
    {
      AlignmentApart(centres, size, i, j, x);
    }
  }

  lemma VersionBitIsSmall(size: nat, x: Cell)
    requires size >= 45 && InVersion(size, x)
    ensures VersionBit(size, x) < 18
  {
  }

  // --- the finished symbol ---------------------------------------------------------------------

  /** A module that shows nothing belongs to no pattern. */
  lemma NoPatternThere(image: Image, version: nat, bits: nat, x: Cell)
    requires 1 <= version <= MAX_VERSION && InSquare(x, SizeOf(version)) && !IsFunction(version, x)
    ensures ShowsPatterns(image, version, bits, x)
  {
  }

  lemma PatternsKept(before: Image, after: Image, version: nat, bits: nat, x: Cell)
    requires 1 <= version <= MAX_VERSION && x in before && Shows(after, x, before[x])
    requires ShowsPatterns(before, version, bits, x)
    ensures ShowsPatterns(after, version, bits, x)
  {
    hide Centres, Value, InAlignment, InTiming, InVersion;
  }

  /** The format information is written beside the two timing modules at the corner. */
  lemma FormatKeepsPatterns(image: Image, size: nat, bits: nat, x: Cell)
    requires size >= 21 && IsPatternModule(size, x) && x in image
    ensures Shows(WithFormat(image, size, bits), x, image[x])
  {
    if InFormat(size, x) {
      WriteFirstAt(image, bits, 15, x);
      WriteSecondAt(WriteFirst(image, bits, 15), size, bits, 15, x);
    } else {
      WithFormatAt(image, size, bits);
    }
  }

  /** Placing data, masking and writing the format leave every pattern module as the base image shows it. */
  lemma SymbolShows(version: nat, versionBits: nat, bits: nat, fixed: set<Cell>, stream: seq<Bit>, masked: Image,
                    mask: nat, x: Cell)
    requires 1 <= version <= MAX_VERSION && mask < 8 && fixed == FunctionCells(version)
    requires forall y | InSquare(y, SizeOf(version)) :: y in BaseImage(version, versionBits)
    requires IsMasked(Fill(BaseImage(version, versionBits), Free(Zigzag(SizeOf(version)), fixed), stream),
                      masked, fixed, mask)
    requires IsPatternModule(SizeOf(version), x)
    ensures ShowsPatterns(WithFormat(masked, SizeOf(version), bits), version, versionBits, x)
  {
    hide BaseImage, FunctionCells, Fill, IsFunction, ShowsPatterns, Zigzag, Free, IsPatternModule, WithFormat;
    var size, base := SizeOf(version), BaseImage(version, versionBits);
    var placed := Fill(base, Free(Zigzag(size), fixed), stream);
    ReservesFunctionModules(version, x);
    BaseShows(version, versionBits, x);
    if x in fixed {
      FillKeeps(version, base, stream, x);
      Unmasks(placed, masked, fixed, mask, x);
      FormatKeepsPatterns(masked, size, bits, x);
      PatternsKept(base, WithFormat(masked, size, bits), version, versionBits, x);
    } else {
      PatternIsInside(size, x);
      NoPatternThere(WithFormat(masked, size, bits), version, versionBits, x);
    }
  }

  lemma PatternIsInside(size: nat, x: Cell)
    requires IsPatternModule(size, x)
    ensures InSquare(x, size)
  {
  }

  /** Data goes into free modules only. */
  lemma FillKeeps(version: nat, base: Image, stream: seq<Bit>, x: Cell)
    requires 1 <= version <= MAX_VERSION && x in base && x in FunctionCells(version)
    requires forall y | InSquare(y, SizeOf(version)) :: y in base
    ensures Shows(Fill(base, Free(Zigzag(SizeOf(version)), FunctionCells(version)), stream), x, base[x])
  {
    hide FunctionCells, Fill, Zigzag, Free;
    RoomForCodewords(version);
    FillAt(base, Free(Zigzag(SizeOf(version)), FunctionCells(version)), stream);
  }
}
