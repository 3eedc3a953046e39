/** The function patterns of a symbol: finders, timing, alignment, format and version areas. */
module QrMatrix {
  import opened Bits
  import opened QrVersions
  import opened QrBch
  import opened QrPlacement
  import opened QrWords

  function Abs(n: int): nat {
    if n < 0 then -n else n
  }

  function Max(a: int, b: int): int {
    if a < b then b else a
  }

  /** The distance of a cell from a centre, counting diagonal steps as one. */
  function Ring(centre: Cell, x: Cell): nat {
    Max(Abs(x.row - centre.row), Abs(x.col - centre.col))
  }

  function SizeOf(version: nat): nat {
    4 * version + 17
  }

  function Centres(version: nat): (c: seq<nat>)
    requires 1 <= version <= MAX_VERSION
  {
    match version
    case 1 => []
    case 2 => [6, 18]
    case 3 => [6, 22]
    case 4 => [6, 26]
    case 5 => [6, 30]
    case 6 => [6, 34]
    case 7 => [6, 22, 38]
    case 8 => [6, 24, 42]
    case 9 => [6, 26, 46]
    case 10 => [6, 28, 50]
    case 11 => [6, 30, 54]
    case 12 => [6, 32, 58]
    case 13 => [6, 34, 62]
    case 14 => [6, 26, 46, 66]
    case _ => [6, 26, 48, 70]
  }

  // --- drawing ---------------------------------------------------------------------------------

  /** What is drawn: a pattern gives every cell it covers its value. */
  datatype Pattern = Finder(centre: Cell) | Timing | Alignment(centre: Cell) | Dark | VersionInfo(size: nat, bits: nat)

  /** Finders: rings 2 and 4 are light. Timing: dark at even positions. Alignment: ring 1 is light. */
  function Value(p: Pattern, x: Cell): Bit {
    match p
    case Finder(centre) => if Ring(centre, x) == 2 || Ring(centre, x) == 4 then 0 else 1
    case Timing => if (x.row + x.col) % 2 == 0 then 1 else 0
    case Alignment(centre) => if Ring(centre, x) == 1 then 0 else 1
    case Dark => 1
    case VersionInfo(size, bits) => BitAt(bits, VersionBit(size, x))
  }

  /** The version bit shown at x: three columns beside the upper right finder, or three rows above the lower left. */
  function VersionBit(size: nat, x: Cell): nat {
    var i := if x.row < x.col then 3 * x.row + x.col - (size - 11) else 3 * x.col + x.row - (size - 11);
    if i < 0 then 0 else i
  }

  /** The image after drawing the cells of a pattern one by one. */
  function Draw(image: Image, p: Pattern, cells: seq<Cell>): Image {
    if cells == [] then image
    else Draw(image, p, cells[..|cells| - 1])[cells[|cells| - 1] := Value(p, cells[|cells| - 1])]
  }

  /** The function modules after marking the cells. */
  function Mark(fixed: set<Cell>, cells: seq<Cell>): set<Cell> {
    if cells == [] then fixed else Mark(fixed, cells[..|cells| - 1]) + {cells[|cells| - 1]}
  }

  /** Drawing changes exactly the cells drawn, whatever their order. */
  lemma {:induction false} DrawAt(image: Image, p: Pattern, cells: seq<Cell>)
    ensures forall x | x in cells :: x in Draw(image, p, cells) && Draw(image, p, cells)[x] == Value(p, x)
    ensures forall x | x !in cells :: (x in Draw(image, p, cells) <==> x in image)
    ensures forall x | x !in cells && x in image :: Draw(image, p, cells)[x] == image[x]
  {
    if cells != [] {
      DrawAt(image, p, cells[..|cells| - 1]);
      assert cells == cells[..|cells| - 1] + [cells[|cells| - 1]];
    }
  }

  lemma {:induction false} MarkAt(fixed: set<Cell>, cells: seq<Cell>)
    ensures forall x :: x in Mark(fixed, cells) <==> x in fixed || x in cells
  {
    if cells != [] {
      MarkAt(fixed, cells[..|cells| - 1]);
      assert cells == cells[..|cells| - 1] + [cells[|cells| - 1]];
    }
  }

  lemma DrawSnoc(image: Image, fixed: set<Cell>, p: Pattern, cells: seq<Cell>, x: Cell)
    ensures Draw(image, p, cells + [x]) == Draw(image, p, cells)[x := Value(p, x)]
    ensures Mark(fixed, cells + [x]) == Mark(fixed, cells) + {x}
  {
    assert (cells + [x])[..|cells|] == cells;
  }

  /** The cells of the first m rows of a box and the first n of the next, row by row, clipped to the symbol. */
  function Raster(size: nat, top: int, left: int, width: nat, m: nat, n: nat): seq<Cell>
    decreases m, n, size
  {
    if n > 0 then
      var rest := Raster(size, top, left, width, m, n - 1);
      var x := Cell(top + m, left + n - 1);
      if InSquare(x, size) then rest + [x] else rest
    else if m > 0 then Raster(size, top, left, width, m - 1, width)
    else []
  }

  lemma {:induction false} RasterCells(size: nat, top: int, left: int, width: nat, m: nat, n: nat)
    requires n <= width
    ensures forall x :: x in Raster(size, top, left, width, m, n) <==>
                        InSquare(x, size) && left <= x.col < left + width &&
                        (top <= x.row < top + m || (x.row == top + m && x.col < left + n))
    decreases m, n
  {
    if n > 0 {
      RasterCells(size, top, left, width, m, n - 1);
    } else if m > 0 {
      RasterCells(size, top, left, width, m - 1, width);
    }
  }

  /** Writes a function module and marks it as one. `cells` is what was drawn before. */
  method SetFunction(grid: array2<Bit>, fixed: set<Cell>, x: Cell, v: Bit,
                     ghost image: Image, ghost start: set<Cell>, ghost p: Pattern, ghost cells: seq<Cell>)
    returns (f: set<Cell>)
    requires InGrid(x, grid) && v == Value(p, x)
    requires Contents(grid) == Draw(image, p, cells) && fixed == Mark(start, cells)
    modifies grid
    ensures Contents(grid) == Draw(image, p, cells + [x]) && f == Mark(start, cells + [x])
  {
    DrawSnoc(image, start, p, cells, x);
    Write(grid, x, v);
    f := fixed + {x};
  }

  function FinderCells(size: nat, top: int, left: int): seq<Cell> {
    Raster(size, top - 1, left - 1, 9, 9, 0)
  }

  /** Row r and column c of a finder pattern: its outer ring and its core are dark. */
  method FinderModule(ghost top: int, ghost left: int, r: int, c: int) returns (v: Bit)
    requires -1 <= r <= 7 && -1 <= c <= 7
    ensures v == Value(Finder(Cell(top + 3, left + 3)), Cell(top + r, left + c))
  {
    var inRing := 0 <= r <= 6 && 0 <= c <= 6 && (r == 0 || r == 6 || c == 0 || c == 6);
    var inCore := 2 <= r <= 4 && 2 <= c <= 4;
    v := if inRing || inCore then 1 else 0;
  }

  /** A finder pattern with its separator, clipped to the symbol. */
  method DrawFinder(grid: array2<Bit>, fixed: set<Cell>, top: int, left: int) returns (f: set<Cell>)
    requires grid.Length0 == grid.Length1
    modifies grid
    ensures Contents(grid) == Draw(old(Contents(grid)), Finder(Cell(top + 3, left + 3)),
                                    FinderCells(grid.Length0, top, left))
    ensures f == Mark(fixed, FinderCells(grid.Length0, top, left))
  {
    var size := grid.Length0;
    ghost var image, p := Contents(grid), Finder(Cell(top + 3, left + 3));
    ghost var cells: seq<Cell> := [];
    f := fixed;
    for r := -1 to 8
      invariant cells == Raster(size, top - 1, left - 1, 9, r + 1, 0)
      invariant Contents(grid) == Draw(image, p, cells) && f == Mark(fixed, cells)
    {
      for c := -1 to 8
        invariant cells == Raster(size, top - 1, left - 1, 9, r + 1, c + 1)
        invariant Contents(grid) == Draw(image, p, cells) && f == Mark(fixed, cells)
      {
        var x := Cell(top + r, left + c);
        if InSquare(x, size) {
          var v := FinderModule(top, left, r, c);
          f := SetFunction(grid, f, x, v, image, fixed, p, cells);
          cells := cells + [x];
        }
      }
    }
  }

  /** The timing cells from position 8 up to n, one in row 6 and one in column 6 at a time. */
  function TimingCells(n: int): seq<Cell> {
    if n <= 8 then [] else TimingCells(n - 1) + [Cell(6, n - 1)] + [Cell(n - 1, 6)]
  }

  method DrawTiming(grid: array2<Bit>, fixed: set<Cell>) returns (f: set<Cell>)
    requires grid.Length0 == grid.Length1 >= 17
    modifies grid
    ensures Contents(grid) == Draw(old(Contents(grid)), Timing, TimingCells(grid.Length0 - 8))
    ensures f == Mark(fixed, TimingCells(grid.Length0 - 8))
  {
    var size := grid.Length0;
    ghost var image, cells := Contents(grid), TimingCells(8);
    f := fixed;
    for i := 8 to size - 8
      invariant cells == TimingCells(i)
      invariant Contents(grid) == Draw(image, Timing, cells) && f == Mark(fixed, cells)
    {
      var v := if i % 2 == 0 then 1 else 0;
      TimingValue(i);
      f := SetFunction(grid, f, Cell(6, i), v, image, fixed, Timing, cells);
      cells := cells + [Cell(6, i)];
      f := SetFunction(grid, f, Cell(i, 6), v, image, fixed, Timing, cells);
      cells := cells + [Cell(i, 6)];
    }
  }

  lemma TimingValue(i: nat)
    ensures Value(Timing, Cell(6, i)) == Value(Timing, Cell(i, 6)) == if i % 2 == 0 then 1 else 0
  {
  }

  function AlignmentCells(size: nat, centre: Cell): seq<Cell> {
    Raster(size, centre.row - 2, centre.col - 2, 5, 5, 0)
  }

  method DrawAlignment(grid: array2<Bit>, fixed: set<Cell>, centre: Cell) returns (f: set<Cell>)
    requires grid.Length0 == grid.Length1
    requires 2 <= centre.row < grid.Length0 - 2 && 2 <= centre.col < grid.Length0 - 2
    modifies grid
    ensures Contents(grid) == Draw(old(Contents(grid)), Alignment(centre), AlignmentCells(grid.Length0, centre))
    ensures f == Mark(fixed, AlignmentCells(grid.Length0, centre))
  {
    var size := grid.Length0;
    ghost var image := Contents(grid);
    ghost var cells: seq<Cell> := [];
    f := fixed;
    for dr := -2 to 3
      invariant cells == Raster(size, centre.row - 2, centre.col - 2, 5, dr + 2, 0)
      invariant Contents(grid) == Draw(image, Alignment(centre), cells) && f == Mark(fixed, cells)
    {
      f := DrawAlignmentRow(grid, f, centre, dr, image, fixed, cells);
      cells := Raster(size, centre.row - 2, centre.col - 2, 5, dr + 2, 5);
    }
  }

  /** One row of an alignment pattern. `cells` is what was drawn above it. */
  method DrawAlignmentRow(grid: array2<Bit>, fixed: set<Cell>, centre: Cell, dr: int,
                          ghost image: Image, ghost start: set<Cell>, ghost above: seq<Cell>)
    returns (f: set<Cell>)
    requires grid.Length0 == grid.Length1 && -2 <= dr <= 2
    requires 2 <= centre.row < grid.Length0 - 2 && 2 <= centre.col < grid.Length0 - 2
    requires above == Raster(grid.Length0, centre.row - 2, centre.col - 2, 5, dr + 2, 0)
    requires Contents(grid) == Draw(image, Alignment(centre), above) && fixed == Mark(start, above)
    modifies grid
    ensures Contents(grid) ==
            Draw(image, Alignment(centre), Raster(grid.Length0, centre.row - 2, centre.col - 2, 5, dr + 2, 5))
    ensures f == Mark(start, Raster(grid.Length0, centre.row - 2, centre.col - 2, 5, dr + 2, 5))
  {
    hide Draw, Mark, Raster, Contents, Value;
    ghost var cells := above;
    f := fixed;
    for dc := -2 to 3
      invariant cells == Raster(grid.Length0, centre.row - 2, centre.col - 2, 5, dr + 2, dc + 2)
      invariant Contents(grid) == Draw(image, Alignment(centre), cells) && f == Mark(start, cells)
    {
      var x := Cell(centre.row + dr, centre.col + dc);
      var v := AlignmentModule(centre, dr, dc);
      RasterNext(grid.Length0, centre.row - 2, centre.col - 2, 5, dr + 2, dc + 2, x);
      f := SetFunction(grid, f, x, v, image, start, Alignment(centre), cells);
      cells := cells + [x];
    }
  }

  lemma RasterNext(size: nat, top: int, left: int, width: nat, m: nat, n: nat, x: Cell)
    requires x == Cell(top + m, left + n) && InSquare(x, size)
    ensures Raster(size, top, left, width, m, n + 1) == Raster(size, top, left, width, m, n) + [x]
  {
  }

  method AlignmentModule(ghost centre: Cell, dr: int, dc: int) returns (v: Bit)
    ensures v == Value(Alignment(centre), Cell(centre.row + dr, centre.col + dc))
  {
    v := if Max(Abs(dr), Abs(dc)) == 1 then 0 else 1;
  }

  /** The corners that would overlap a finder have no alignment pattern. */
  predicate Skipped(count: nat, i: nat, j: nat) {
    (i == 0 && j == 0) || (i == 0 && j == count - 1) || (i == count - 1 && j == 0)
  }

  /** The image and the marks after the alignment patterns of the first i rows and j columns more. */
  function DrawAlignments(image: Image, size: nat, centres: seq<nat>, i: nat, j: nat): Image
    requires i < |centres| || (i == |centres| && j == 0)
    requires j <= |centres|
    decreases i, j
  {
    if j > 0 then
      var rest := DrawAlignments(image, size, centres, i, j - 1);
      var centre := Cell(centres[i], centres[j - 1]);
      if Skipped(|centres|, i, j - 1) then rest else Draw(rest, Alignment(centre), AlignmentCells(size, centre))
    else if i > 0 then DrawAlignments(image, size, centres, i - 1, |centres|)
    else image
  }

  function MarkAlignments(fixed: set<Cell>, size: nat, centres: seq<nat>, i: nat, j: nat): set<Cell>
    requires i < |centres| || (i == |centres| && j == 0)
    requires j <= |centres|
    decreases i, j
  {
    if j > 0 then
      var rest := MarkAlignments(fixed, size, centres, i, j - 1);
      if Skipped(|centres|, i, j - 1) then rest
      else Mark(rest, AlignmentCells(size, Cell(centres[i], centres[j - 1])))
    else if i > 0 then MarkAlignments(fixed, size, centres, i - 1, |centres|)
    else fixed
  }

  /** Every centre leaves room for the pattern around it. */
  predicate Inside(centres: seq<nat>, size: nat) {
    forall k | 0 <= k < |centres| :: 2 <= centres[k] < size - 2
  }

  method DrawAllAlignments(grid: array2<Bit>, fixed: set<Cell>, centres: seq<nat>) returns (f: set<Cell>)
    requires grid.Length0 == grid.Length1 && Inside(centres, grid.Length0)
    modifies grid
    ensures Contents(grid) == DrawAlignments(old(Contents(grid)), grid.Length0, centres, |centres|, 0)
    ensures f == MarkAlignments(fixed, grid.Length0, centres, |centres|, 0)
  {
    ghost var image := Contents(grid);
    f := fixed;
    for i := 0 to |centres|
      invariant Contents(grid) == DrawAlignments(image, grid.Length0, centres, i, 0)
      invariant f == MarkAlignments(fixed, grid.Length0, centres, i, 0)
    {
      for j := 0 to |centres|
        invariant Contents(grid) == DrawAlignments(image, grid.Length0, centres, i, j)
        invariant f == MarkAlignments(fixed, grid.Length0, centres, i, j)
      {
        f := DrawUnlessSkipped(grid, f, centres, i, j, image, fixed);
      }
    }
  }

  /** The alignment pattern of one pair of centres, unless a finder is there. */
  method DrawUnlessSkipped(grid: array2<Bit>, fixed: set<Cell>, centres: seq<nat>, i: nat, j: nat,
                           ghost image: Image, ghost start: set<Cell>)
    returns (f: set<Cell>)
    requires grid.Length0 == grid.Length1 && Inside(centres, grid.Length0) && i < |centres| && j < |centres|
    requires Contents(grid) == DrawAlignments(image, grid.Length0, centres, i, j)
    requires fixed == MarkAlignments(start, grid.Length0, centres, i, j)
    modifies grid
    ensures Contents(grid) == DrawAlignments(image, grid.Length0, centres, i, j + 1)
    ensures f == MarkAlignments(start, grid.Length0, centres, i, j + 1)
  {
    f := fixed;
    if !Skipped(|centres|, i, j) {
      f := DrawAlignment(grid, f, Cell(centres[i], centres[j]));
    }
  }

  /** The cells of the format areas, as they are reserved. */
  function FormatCells(size: nat, n: nat): seq<Cell>
    decreases n, size
  {
    if n == 0 then []
    else
      var both := FormatCells(size, n - 1) + [Cell(8, n - 1)] + [Cell(n - 1, 8)];
      if n - 1 < 8 then both + [Cell(8, size - n)] + [Cell(size - n, 8)] else both
  }

  method ReserveFormat(size: nat, fixed: set<Cell>) returns (f: set<Cell>)
    ensures f == Mark(fixed, FormatCells(size, 9))
  {
    f := fixed;
    ghost var cells := FormatCells(size, 0);
    for i := 0 to 9
      invariant cells == FormatCells(size, i)
      invariant f == Mark(fixed, cells)
    {
      MarkSnoc(fixed, cells, Cell(8, i));
      MarkSnoc(fixed, cells + [Cell(8, i)], Cell(i, 8));
      f := f + {Cell(8, i)} + {Cell(i, 8)};
      cells := cells + [Cell(8, i)] + [Cell(i, 8)];
      if i < 8 {
        MarkSnoc(fixed, cells, Cell(8, size - 1 - i));
        MarkSnoc(fixed, cells + [Cell(8, size - 1 - i)], Cell(size - 1 - i, 8));
        f := f + {Cell(8, size - 1 - i)} + {Cell(size - 1 - i, 8)};
        cells := cells + [Cell(8, size - 1 - i)] + [Cell(size - 1 - i, 8)];
      }
    }
  }

  lemma MarkSnoc(fixed: set<Cell>, cells: seq<Cell>, x: Cell)
    ensures Mark(fixed, cells + [x]) == Mark(fixed, cells) + {x}
  {
    assert (cells + [x])[..|cells|] == cells;
  }

  /** The cells of the first n bits of version information, each in both places. */
  function VersionCells(size: nat, n: nat): seq<Cell>
    decreases n, size
  {
    if n == 0 then []
    else
      var a, b := (n - 1) / 3, (n - 1) % 3 + size - 11;
      VersionCells(size, n - 1) + [Cell(a, b)] + [Cell(b, a)]
  }

  method DrawVersion(grid: array2<Bit>, fixed: set<Cell>, bits: nat) returns (f: set<Cell>)
    requires grid.Length0 == grid.Length1 >= 17
    modifies grid
    ensures Contents(grid) == Draw(old(Contents(grid)), VersionInfo(grid.Length0, bits), VersionCells(grid.Length0, 18))
    ensures f == Mark(fixed, VersionCells(grid.Length0, 18))
  {
    ghost var image, size := Contents(grid), grid.Length0;
    NothingDrawn(image, fixed, VersionInfo(size, bits));
    f := fixed;
    assert VersionCells(size, 0) == [];
    hide VersionCells, Draw, Mark, Contents, BitAt;
    for i := 0 to 18
      invariant Contents(grid) == Draw(image, VersionInfo(size, bits), VersionCells(size, i))
      invariant f == Mark(fixed, VersionCells(size, i))
    {
      f := DrawVersionBit(grid, f, bits, i, image, fixed);
    }
  }

  /** Bit i of the version information, at both of its places. */
  method DrawVersionBit(grid: array2<Bit>, before: set<Cell>, bits: nat, i: nat,
                        ghost image: Image, ghost fixed: set<Cell>)
    returns (f: set<Cell>)
    requires grid.Length0 == grid.Length1 >= 17 && i < 18
    requires Contents(grid) == Draw(image, VersionInfo(grid.Length0, bits), VersionCells(grid.Length0, i))
    requires before == Mark(fixed, VersionCells(grid.Length0, i))
    modifies grid
    ensures Contents(grid) == Draw(image, VersionInfo(grid.Length0, bits), VersionCells(grid.Length0, i + 1))
    ensures f == Mark(fixed, VersionCells(grid.Length0, i + 1))
  {
    hide VersionCells, Draw, Mark, Contents, BitAt, VersionBit;
    var size := grid.Length0;
    ghost var cells, p := VersionCells(size, i), VersionInfo(size, bits);
    var bit := BitAt(bits, i);
    var a, b := i / 3, i % 3 + size - 11;
    VersionValue(size, bits, i);
    VersionCellsNext(size, i);
    f := SetFunction(grid, before, Cell(a, b), bit, image, fixed, p, cells);
    f := SetFunction(grid, f, Cell(b, a), bit, image, fixed, p, cells + [Cell(a, b)]);
  }

  lemma NothingDrawn(image: Image, fixed: set<Cell>, p: Pattern)
    ensures Draw(image, p, []) == image && Mark(fixed, []) == fixed
  {
  }

  lemma VersionCellsNext(size: nat, i: nat)
    ensures VersionCells(size, i + 1) ==
            VersionCells(size, i) + [Cell(i / 3, i % 3 + size - 11)] + [Cell(i % 3 + size - 11, i / 3)]
  {
  }

  lemma VersionValue(size: nat, bits: nat, i: nat)
    requires i < 18 && size >= 17
    ensures VersionBit(size, Cell(i / 3, i % 3 + size - 11)) == i
    ensures VersionBit(size, Cell(i % 3 + size - 11, i / 3)) == i
  {
  }

  // --- the whole -------------------------------------------------------------------------------

  /** The 18 bits of version information: the version and twelve check bits. */
  method BchVersion(version: nat) returns (bits: nat)
    requires version < 64
    ensures bits / 4096 == version && Divides(0x1f25, bits)
    ensures 7 <= version <= MAX_VERSION ==> bits == VersionWord(version)
  {
    Pow2Twelve();
    var v := Remainder(version, 6, 0x1f25, 12);
    bits := version * 4096 + v;
    if 7 <= version <= MAX_VERSION {
      VersionWordIs(bits, version);
    }
  }

  lemma Pow2Twelve()
    ensures Pow2(6) == 64 && Pow2(12) == 4096
  {
    assert Pow2(4) == 16 && Pow2(8) == 256;
  }

  function Blank(size: nat): Image {
    map x | x in Area(size, size) :: 0
  }

  /** The function patterns over `image`, in the order they are drawn; a later one replaces an earlier one. */
  function Patterns(image: Image, size: nat, centres: seq<nat>): Image {
    var first := Draw(image, Finder(Cell(3, 3)), FinderCells(size, 0, 0));
    var second := Draw(first, Finder(Cell(3, size - 4)), FinderCells(size, 0, size - 7));
    var third := Draw(second, Finder(Cell(size - 4, 3)), FinderCells(size, size - 7, 0));
    var timed := Draw(third, Timing, TimingCells(size - 8));
    var aligned := DrawAlignments(timed, size, centres, |centres|, 0);
    Draw(aligned, Dark, [Cell(size - 8, 8)])
  }

  /** The modules these patterns and the format areas take. */
  function PatternCells(size: nat, centres: seq<nat>): set<Cell> {
    var finders := Mark(Mark(Mark({}, FinderCells(size, 0, 0)), FinderCells(size, 0, size - 7)),
                        FinderCells(size, size - 7, 0));
    var timed := Mark(finders, TimingCells(size - 8));
    var aligned := MarkAlignments(timed, size, centres, |centres|, 0);
    Mark(Mark(aligned, FormatCells(size, 9)), [Cell(size - 8, 8)])
  }

  /** All function patterns of a version; from version 7 on it carries its own number. */
  function BaseImage(version: nat, versionBits: nat): Image
    requires 1 <= version <= MAX_VERSION
  {
    var size := SizeOf(version);
    var image := Patterns(Blank(size), size, Centres(version));
    if version >= 7 then Draw(image, VersionInfo(size, versionBits), VersionCells(size, 18)) else image
  }

  /** The modules that carry no data. */
  function FunctionCells(version: nat): set<Cell>
    requires 1 <= version <= MAX_VERSION
  {
    var size := SizeOf(version);
    var cells := PatternCells(size, Centres(version));
    if version >= 7 then Mark(cells, VersionCells(size, 18)) else cells
  }

  lemma CentresInside(version: nat)
    requires 1 <= version <= MAX_VERSION
    ensures Inside(Centres(version), SizeOf(version))
  {
  }

  method BlankGrid(size: nat) returns (grid: array2<Bit>)
    ensures fresh(grid) && grid.Length0 == grid.Length1 == size
    ensures Contents(grid) == Blank(size)
  {
    grid := new Bit[size, size]((r, c) => 0);
    ContentsAt(grid);
  }

  method DrawFinders(grid: array2<Bit>, fixed: set<Cell>) returns (f: set<Cell>)
    requires grid.Length0 == grid.Length1
    modifies grid
    ensures var size := grid.Length0;
            Contents(grid) == Draw(Draw(Draw(old(Contents(grid)), Finder(Cell(3, 3)), FinderCells(size, 0, 0)),
                                        Finder(Cell(3, size - 4)), FinderCells(size, 0, size - 7)),
                                   Finder(Cell(size - 4, 3)), FinderCells(size, size - 7, 0))
    ensures var size := grid.Length0;
            f == Mark(Mark(Mark(fixed, FinderCells(size, 0, 0)), FinderCells(size, 0, size - 7)),
                      FinderCells(size, size - 7, 0))
  {
    hide Draw, FirstModules, Mark, FinderCells;
    var size := grid.Length0;
    f := DrawFinder(grid, fixed, 0, 0);
    f := DrawFinder(grid, f, 0, size - 7);
    f := DrawFinder(grid, f, size - 7, 0);
  }

  method DrawPatterns(grid: array2<Bit>, centres: seq<nat>) returns (f: set<Cell>)
    requires grid.Length0 == grid.Length1 >= 17 && Inside(centres, grid.Length0)
    modifies grid
    ensures Contents(grid) == Patterns(old(Contents(grid)), grid.Length0, centres)
    ensures f == PatternCells(grid.Length0, centres)
  {
    var size := grid.Length0;
    f := DrawFinders(grid, {});
    f := DrawTiming(grid, f);
    f := DrawAllAlignments(grid, f, centres);
    f := ReserveFormat(size, f);
    ghost var image, marked := Contents(grid), f;
    f := SetFunction(grid, f, Cell(size - 8, 8), 1, image, marked, Dark, []);
    assert [] + [Cell(size - 8, 8)] == [Cell(size - 8, 8)];
  }

  method BaseMatrix(version: nat) returns (grid: array2<Bit>, fixed: set<Cell>, ghost versionBits: nat)
    requires 1 <= version <= MAX_VERSION
    ensures fresh(grid) && grid.Length0 == grid.Length1 == SizeOf(version)
    ensures version >= 7 ==> versionBits == VersionWord(version)
    ensures Contents(grid) == BaseImage(version, versionBits)
    ensures fixed == FunctionCells(version)
  {
    CentresInside(version);
    grid := BlankGrid(SizeOf(version));
    fixed := DrawPatterns(grid, Centres(version));
    versionBits := 0;
    if version >= 7 {
      var bits := BchVersion(version);
      fixed := DrawVersion(grid, fixed, bits);
      versionBits := bits;
    }
  }
}
