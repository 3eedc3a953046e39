/** The zigzag that places codeword bits in the free modules of a symbol, and reading them back. */
module QrPlacement {
  import opened Bits
  import opened BitStream

  datatype Cell = Cell(row: int, col: int)

  predicate InSquare(x: Cell, size: nat) {
    0 <= x.row < size && 0 <= x.col < size
  }

  /** A strip two modules wide whose right column is `right`, walked up or down. */
  function StripCell(size: nat, right: int, upward: bool, t: int): Cell {
    Cell(if upward then size - 1 - t / 2 else t / 2, right - t % 2)
  }

  /** `path` followed by the first n cells of a strip. */
  function StripFrom(path: seq<Cell>, size: nat, right: int, upward: bool, n: nat): seq<Cell> {
    if n == 0 then path
    else StripFrom(path, size, right, upward, n - 1) + [StripCell(size, right, upward, n - 1)]
  }

  /** The strip to walk next: the vertical timing column is skipped. */
  function SkipTiming(right: int): int {
    if right == 6 then 5 else right
  }

  /** `path` followed by every strip from `right` leftwards, turning round after each. */
  function WalkFrom(path: seq<Cell>, size: nat, right: int, upward: bool): seq<Cell>
    decreases right
  {
    if right < 1 then path
    else WalkFrom(StripFrom(path, size, SkipTiming(right), upward, 2 * size), size, SkipTiming(right) - 2, !upward)
  }

  /** The whole walk of a symbol. */
  function Zigzag(size: nat): seq<Cell> {
    WalkFrom([], size, size - 1, true)
  }

  /** The cells of a path that are not reserved, in order. */
  function Free(path: seq<Cell>, reserved: set<Cell>): seq<Cell> {
    if path == [] then []
    else
      var rest := Free(path[..|path| - 1], reserved);
      if path[|path| - 1] in reserved then rest else rest + [path[|path| - 1]]
  }

  ghost predicate Distinct<T>(s: seq<T>) {
    forall a, b | 0 <= a < b < |s| :: s[a] != s[b]
  }

  // --- the walk visits every module once -------------------------------------------------------

  /** The path has every cell of the columns from `lowest` on except column 6, once each. */
  ghost predicate Covers(path: seq<Cell>, size: nat, lowest: int) {
    && Distinct(path)
    && forall x: Cell :: x in path <==> 0 <= x.row < size && lowest <= x.col < size && x.col != 6
  }

  /** How far down a strip a cell stands. */
  function Along(size: nat, right: int, upward: bool, x: Cell): int {
    2 * (if upward then size - 1 - x.row else x.row) + right - x.col
  }

  lemma AlongCell(size: nat, right: int, upward: bool, x: Cell, t: int)
    requires right - 1 <= x.col <= right && 0 <= t
    ensures StripCell(size, right, upward, t) == x <==> Along(size, right, upward, x) == t
  {
  }

  lemma {:induction false} StripCovers(path: seq<Cell>, size: nat, right: int, upward: bool, n: nat)
    requires right < 6 || right > 7
    requires right < size && n <= 2 * size && Covers(path, size, right + 1)
    ensures Distinct(StripFrom(path, size, right, upward, n))
    ensures forall x: Cell :: x in StripFrom(path, size, right, upward, n) <==>
                              x in path || (right - 1 <= x.col <= right && 0 <= Along(size, right, upward, x) < n)
  {
    if n > 0 {
      StripCovers(path, size, right, upward, n - 1);
      var last := StripCell(size, right, upward, n - 1);
      assert last !in path;
      forall x: Cell | right - 1 <= x.col <= right ensures x == last <==> Along(size, right, upward, x) == n - 1 {
        AlongCell(size, right, upward, x, n - 1);
      }
    }
  }

  lemma WholeStripCovers(path: seq<Cell>, size: nat, right: int, upward: bool)
    requires 1 <= right < 6 || 7 < right < size
    requires right < size && Covers(path, size, right + 1)
    ensures Covers(StripFrom(path, size, right, upward, 2 * size), size, right - 1)
  {
    StripCovers(path, size, right, upward, 2 * size);
    forall x: Cell | right - 1 <= x.col <= right
      ensures 0 <= Along(size, right, upward, x) < 2 * size <==> 0 <= x.row < size
    {
    }
  }

  /** From an even column right of the timing column, or an odd one left of it, the walk covers all but column 6. */
  lemma {:induction false} WalkCovers(path: seq<Cell>, size: nat, right: int, upward: bool)
    requires -1 <= right < size
    requires if right > 5 then right % 2 == 0 else right % 2 == 1
    requires Covers(path, size, right + 1)
    ensures Covers(WalkFrom(path, size, right, upward), size, 0)
    decreases right
  {
    if right >= 1 {
      var col := SkipTiming(right);
      assert Covers(path, size, col + 1);
      WholeStripCovers(path, size, col, upward);
      WalkCovers(StripFrom(path, size, col, upward, 2 * size), size, col - 2, !upward);
    }
  }

  lemma {:induction false} FreeCells(path: seq<Cell>, reserved: set<Cell>)
    requires Distinct(path)
    ensures Distinct(Free(path, reserved))
    ensures forall x :: x in Free(path, reserved) <==> x in path && x !in reserved
  {
    if path != [] {
      var init, last := path[..|path| - 1], path[|path| - 1];
      FreeCells(init, reserved);
      assert path == init + [last];
      assert last !in init;
      assert last !in Free(init, reserved);
    }
  }

  /**
   * In any symbol of odd size at least 7 whose column 6 is reserved, the free modules are visited
   * exactly once each and the reserved ones never.
   */
  lemma VisitsEachFreeModuleOnce(size: nat, reserved: set<Cell>)
    requires size % 2 == 1 && size >= 7
    requires forall r | 0 <= r < size :: Cell(r, 6) in reserved
    ensures var free := Free(Zigzag(size), reserved);
            && Distinct(free)
            && forall x: Cell :: x in free <==> InSquare(x, size) && x !in reserved
  {
    WalkCovers([], size, size - 1, true);
    FreeCells(Zigzag(size), reserved);
    var free := Free(Zigzag(size), reserved);
    forall x: Cell ensures x in free <==> InSquare(x, size) && x !in reserved {
      if InSquare(x, size) && x.col == 6 {
        assert x == Cell(x.row, 6);
      }
    }
  }

  /** The modules of a symbol: a value at every cell. */
  type Image = map<Cell, Bit>

  function Contents(grid: array2<Bit>): (m: Image)
    reads grid
  {
    FirstModules(grid, grid.Length0, 0)
  }

  /** The modules of the first m rows and the first n of the next. */
  function FirstModules(grid: array2<Bit>, m: nat, n: nat): Image
    requires m < grid.Length0 || (m == grid.Length0 && n == 0)
    requires n <= grid.Length1
    reads grid
    decreases m, n
  {
    if n > 0 then FirstModules(grid, m, n - 1)[Cell(m, n - 1) := grid[m, n - 1]]
    else if m > 0 then FirstModules(grid, m - 1, grid.Length1)
    else map[]
  }

  lemma {:induction false} FirstModulesAt(grid: array2<Bit>, m: nat, n: nat)
    requires m < grid.Length0 || (m == grid.Length0 && n == 0)
    requires n <= grid.Length1
    ensures forall x :: x in FirstModules(grid, m, n) <==>
                        0 <= x.col < grid.Length1 && (0 <= x.row < m || (x.row == m && x.col < n))
    ensures forall x | x in FirstModules(grid, m, n) :: FirstModules(grid, m, n)[x] == grid[x.row, x.col]
    decreases m, n
  {
    if n > 0 {
      FirstModulesAt(grid, m, n - 1);
    } else if m > 0 {
      FirstModulesAt(grid, m - 1, grid.Length1);
    }
  }

  lemma ContentsAt(grid: array2<Bit>)
    ensures Contents(grid).Keys == Area(grid.Length0, grid.Length1)
    ensures forall x | x in Contents(grid) :: InGrid(x, grid) && Contents(grid)[x] == grid[x.row, x.col]
  {
    FirstModulesAt(grid, grid.Length0, 0);
  }

  predicate InGrid(x: Cell, grid: array2<Bit>) {
    0 <= x.row < grid.Length0 && 0 <= x.col < grid.Length1
  }

  /** All the cells of a rectangle. */
  function Area(height: nat, width: nat): (s: set<Cell>)
    ensures forall x :: x in s <==> 0 <= x.row < height && 0 <= x.col < width
  {
    set r, c | 0 <= r < height && 0 <= c < width :: Cell(r, c)
  }

  method Write(grid: array2<Bit>, x: Cell, v: Bit)
    requires InGrid(x, grid)
    modifies grid
    ensures Contents(grid) == old(Contents(grid))[x := v]
  {
    ghost var before := Contents(grid);
    ContentsAt(grid);
    grid[x.row, x.col] := v;
    ContentsAt(grid);
    assert Contents(grid) == before[x := v];
  }

  // --- placing ---------------------------------------------------------------------------------

  /** Bit m of the stream placed in a symbol: the codewords' bits, then zeros. */
  function StreamBit(bits: seq<Bit>, m: nat): Bit {
    if m < |bits| then bits[m] else 0
  }

  /** `before` with the stream written into the modules of `free`, one after the other. */
  function Fill(before: Image, free: seq<Cell>, bits: seq<Bit>): (r: Image) {
    if free == [] then before
    else Fill(before, free[..|free| - 1], bits)[free[|free| - 1] := StreamBit(bits, |free| - 1)]
  }

  lemma FillSnoc(before: Image, free: seq<Cell>, bits: seq<Bit>, x: Cell)
    ensures Fill(before, free + [x], bits) == Fill(before, free, bits)[x := StreamBit(bits, |free|)]
  {
    assert (free + [x])[..|free|] == free;
  }

  /** Filling distinct modules puts bit m in the m-th of them and leaves every other module as it was. */
  lemma {:induction false} FillAt(before: Image, free: seq<Cell>, bits: seq<Bit>)
    requires Distinct(free) && forall x | x in free :: x in before
    ensures Fill(before, free, bits).Keys == before.Keys
    ensures forall m | 0 <= m < |free| :: Fill(before, free, bits)[free[m]] == StreamBit(bits, m)
    ensures forall x | x in before && x !in free :: Fill(before, free, bits)[x] == before[x]
  {
    if free != [] {
      var init, last := free[..|free| - 1], free[|free| - 1];
      assert free == init + [last];
      FillAt(before, init, bits);
      FillSnoc(before, init, bits, last);
      forall m | 0 <= m < |free| - 1 ensures free[m] == init[m] != last {
      }
    }
  }

  lemma FreeSnoc(path: seq<Cell>, x: Cell, reserved: set<Cell>)
    ensures Free(path + [x], reserved) == if x in reserved then Free(path, reserved) else Free(path, reserved) + [x]
  {
    assert (path + [x])[..|path|] == path;
  }

  /** One module: a reserved one is passed over, a free one takes the next bit. `path` is what was walked before. */
  method PlaceModule(grid: array2<Bit>, fixed: set<Cell>, bits: seq<Bit>, x: Cell, start: nat,
                     ghost path: seq<Cell>, ghost before: Image)
    returns (k: nat)
    requires InGrid(x, grid) && start == |Free(path, fixed)|
    requires Contents(grid) == Fill(before, Free(path, fixed), bits)
    modifies grid
    ensures k == |Free(path + [x], fixed)|
    ensures Contents(grid) == Fill(before, Free(path + [x], fixed), bits)
  {
    FreeSnoc(path, x, fixed);
    FillSnoc(before, Free(path, fixed), bits, x);
    k := start;
    if x !in fixed {
      Write(grid, x, if k < |bits| then bits[k] else 0);
      k := k + 1;
    }
  }

  /** The two inner loops: one strip. */
  method PlaceStrip(grid: array2<Bit>, fixed: set<Cell>, bits: seq<Bit>, right: int, upward: bool, start: nat,
                    ghost path: seq<Cell>, ghost before: Image)
    returns (k: nat)
    requires grid.Length0 == grid.Length1
    requires 1 <= right < grid.Length0
    requires start == |Free(path, fixed)|
    requires Contents(grid) == Fill(before, Free(path, fixed), bits)
    modifies grid
    ensures k == |Free(StripFrom(path, grid.Length0, right, upward, 2 * grid.Length0), fixed)|
    ensures Contents(grid) ==
            Fill(before, Free(StripFrom(path, grid.Length0, right, upward, 2 * grid.Length0), fixed), bits)
  {
    hide Fill, Free, Zigzag;
    var size := grid.Length0;
    ghost var done := path;
    k := start;
    for n := 0 to size
      invariant done == StripFrom(path, size, right, upward, 2 * n)
      invariant k == |Free(done, fixed)|
      invariant Contents(grid) == Fill(before, Free(done, fixed), bits)
    {
      var r := if upward then size - 1 - n else n;
      for j := 0 to 2
        invariant done == StripFrom(path, size, right, upward, 2 * n + j)
        invariant k == |Free(done, fixed)|
        invariant Contents(grid) == Fill(before, Free(done, fixed), bits)
      {
        var x := Cell(r, right - j);
        k := PlaceModule(grid, fixed, bits, x, k, done, before);
        StripStep(size, right, upward, n, j);
        done := done + [x];
      }
    }
  }

  lemma StripStep(size: nat, right: int, upward: bool, n: nat, j: nat)
    requires n < size && j < 2
    ensures StripCell(size, right, upward, 2 * n + j) == Cell(if upward then size - 1 - n else n, right - j)
  {
  }

  /** Puts the bits of the codewords into the free modules, in the order of the zigzag. */
  method PlaceData(grid: array2<Bit>, fixed: set<Cell>, codewords: seq<Byte>)
    requires grid.Length0 == grid.Length1
    requires grid.Length0 % 2 == 1 && grid.Length0 >= 7
    modifies grid
    ensures Contents(grid) == Fill(old(Contents(grid)), Free(Zigzag(grid.Length0), fixed), Unpack(codewords))
  {
    var size := grid.Length0;
    var bits := CodewordBits(codewords);
    ghost var before := Contents(grid);
    ghost var done: seq<Cell> := [];
    var k := 0;
    var upward := true;
    var right := size - 1;
    while right >= 1
      invariant -1 <= right < size
      invariant WalkFrom(done, size, right, upward) == Zigzag(size)
      invariant k == |Free(done, fixed)|
      invariant Contents(grid) == Fill(before, Free(done, fixed), bits)
    {
      if right == 6 {
        right := 5;
      }
      k := PlaceStrip(grid, fixed, bits, right, upward, k, done, before);
      done := StripFrom(done, size, right, upward, 2 * size);
      right := right - 2;
      upward := !upward;
    }
  }

  method CodewordBits(codewords: seq<Byte>) returns (bits: seq<Bit>)
    ensures bits == Unpack(codewords)
  {
    hide BitsOf;
    bits := [];
    for n := 0 to |codewords|
      invariant bits == Unpack(codewords[..n])
    {
      ghost var all := BitsOf(codewords[n], 8);
      ghost var start := bits;
      var i := 8;
      while i > 0
        invariant 0 <= i <= 8
        invariant bits == start + all[..8 - i]
      {
        i := i - 1;
        BitsOfAt(codewords[n], 8, 7 - i);
        bits := bits + [BitAt(codewords[n], i)];
      }
      assert all[..8] == all;
      assert codewords[..n + 1][..n] == codewords[..n];
    }
    assert codewords[..|codewords|] == codewords;
  }

  // --- reading ---------------------------------------------------------------------------------

  /** The modules of a path, in order. */
  function ReadPath(image: Image, path: seq<Cell>): (bits: seq<Bit>)
    requires forall x | x in path :: x in image
    ensures |bits| == |path|
  {
    seq(|path|, m requires 0 <= m < |path| => image[path[m]])
  }

  /** Reading the free modules in the order they were filled gives the codeword bits, then zeros. */
  lemma ReadsWhatWasPlaced(before: Image, free: seq<Cell>, bits: seq<Bit>)
    requires Distinct(free) && |bits| <= |free|
    requires forall x | x in free :: x in before
    ensures Fill(before, free, bits).Keys == before.Keys
    ensures ReadPath(Fill(before, free, bits), free) == bits + ZeroBits(|free| - |bits|)
  {
    FillAt(before, free, bits);
  }
}
