/** The penalty score that chooses a mask: what it counts (ISO/IEC 18004:2015, 7.8.3), and the loops that count it. */
module QrPenalty {
  import opened Bits
  import opened QrPlacement
  import opened QrMatrix

  // --- runs in a line --------------------------------------------------------------------------

  /** One module more: it makes the last run longer, or starts a new one. */
  function Grown(runs: seq<nat>, longer: bool): (r: seq<nat>)
    requires longer ==> runs != []
    ensures r != [] && r[|r| - 1] == if longer then runs[|runs| - 1] + 1 else 1
  {
    if longer then runs[|runs| - 1 := runs[|runs| - 1] + 1] else runs + [1]
  }

  /** The lengths of the runs of equal modules, kept up to date as the line grows. */
  function Runs(s: seq<Bit>): (r: seq<nat>)
    ensures s != [] ==> r != [] && r[|r| - 1] >= 1
  {
    if s == [] then []
    else Grown(Runs(s[..|s| - 1]), |s| > 1 && s[|s| - 2] == s[|s| - 1])
  }

  /** r lists the lengths of the maximal uniform runs that s is made of. */
  ghost predicate AreMaximalRuns(s: seq<Bit>, r: seq<nat>)
    decreases |r|
  {
    if r == [] then s == []
    else
      var n := r[|r| - 1];
      && 1 <= n <= |s|
      && (forall k | |s| - n <= k < |s| :: s[k] == s[|s| - 1])
      && (n < |s| ==> s[|s| - n - 1] != s[|s| - 1])
      && AreMaximalRuns(s[..|s| - n], r[..|r| - 1])
  }

  lemma MaximalStarts(s: seq<Bit>, before: seq<nat>)
    requires s != [] && AreMaximalRuns(s[..|s| - 1], before)
    requires |s| > 1 ==> s[|s| - 2] != s[|s| - 1]
    ensures AreMaximalRuns(s, Grown(before, false))
  {
    var r := Grown(before, false);
    assert r[..|r| - 1] == before;
  }

  lemma MaximalGoesOn(s: seq<Bit>, before: seq<nat>)
    requires |s| > 1 && before != [] && AreMaximalRuns(s[..|s| - 1], before) && s[|s| - 2] == s[|s| - 1]
    ensures AreMaximalRuns(s, Grown(before, true))
  {
    var init, r := s[..|s| - 1], Grown(before, true);
    var n := before[|before| - 1];
    assert r[..|r| - 1] == before[..|before| - 1];
    assert s[..|s| - (n + 1)] == init[..|init| - n];
    assert init[|init| - 1] == s[|s| - 1];
    forall k | |s| - (n + 1) <= k < |s| ensures s[k] == s[|s| - 1] {
      assert k < |init| ==> init[k] == init[|init| - 1];
    }
    assert n < |init| ==> init[|init| - n - 1] == s[|s| - (n + 1) - 1];
  }

  /** The running count finds exactly the maximal runs. */
  lemma {:induction false} RunsAreMaximal(s: seq<Bit>)
    ensures AreMaximalRuns(s, Runs(s))
    decreases |s|
  {
    hide Grown, AreMaximalRuns;
    if s == [] {
      NoRuns();
    } else {
      var before := Runs(s[..|s| - 1]);
      RunsAreMaximal(s[..|s| - 1]);
      if |s| > 1 && s[|s| - 2] == s[|s| - 1] {
        MaximalGoesOn(s, before);
      } else {
        MaximalStarts(s, before);
      }
    }
  }

  lemma NoRuns()
    ensures AreMaximalRuns([], [])
  {
  }

  /** And no other list of lengths does. */
  lemma {:induction false} MaximalRunsAreUnique(s: seq<Bit>, r: seq<nat>, t: seq<nat>)
    requires AreMaximalRuns(s, r) && AreMaximalRuns(s, t)
    ensures r == t
    decreases |r|
  {
    if r != [] {
      var m := r[|r| - 1];
      MaximalRunsAreUnique(s[..|s| - m], r[..|r| - 1], t[..|t| - 1]);
    }
  }

  /** A maximal run of five or more costs its length less 2. */
  function RunValue(length: nat): nat {
    if length >= 5 then length - 2 else 0
  }

  function RunValues(runs: seq<nat>): nat {
    if runs == [] then 0 else RunValues(runs[..|runs| - 1]) + RunValue(runs[|runs| - 1])
  }

  function Final(runs: seq<nat>): nat
    requires runs != []
  {
    runs[|runs| - 1]
  }

  function LastRun(s: seq<Bit>): nat
    requires s != []
  {
    Runs(s)[|Runs(s)| - 1]
  }

  lemma RunsExtended(s: seq<Bit>, c: Bit)
    requires s != []
    ensures c == s[|s| - 1] ==>
              && LastRun(s + [c]) == LastRun(s) + 1
              && RunValues(Runs(s + [c])) == RunValues(Runs(s)) + RunValue(LastRun(s) + 1) - RunValue(LastRun(s))
    ensures c != s[|s| - 1] ==>
              LastRun(s + [c]) == 1 && RunValues(Runs(s + [c])) == RunValues(Runs(s))
  {
    hide Runs, Grown, RunValues, RunValue, LastRun, Final;
    var t, longer := s + [c], c == s[|s| - 1];
    RunsStep(s, c);
    LastIs(s);
    LastIs(t);
    GrownValues(Runs(s), longer);
    assert LastRun(t) == if longer then LastRun(s) + 1 else 1;
  }

  lemma LastIs(s: seq<Bit>)
    requires s != []
    ensures LastRun(s) == Final(Runs(s))
  {
  }

  lemma GrownValues(runs: seq<nat>, longer: bool)
    requires runs != []
    ensures Final(Grown(runs, longer)) == if longer then Final(runs) + 1 else 1
    ensures RunValues(Grown(runs, longer)) ==
            RunValues(runs) + if longer then RunValue(Final(runs) + 1) - RunValue(Final(runs)) else 0
  {
    hide RunValues;
    if longer {
      LastChanged(runs, Final(runs) + 1);
    } else {
      RunAdded(runs, 1);
    }
  }

  lemma RunsStep(s: seq<Bit>, c: Bit)
    requires s != []
    ensures Runs(s + [c]) == Grown(Runs(s), c == s[|s| - 1])
  {
    hide Runs, Grown;
    var t := s + [c];
    assert t[..|s|] == s && t[|s|] == c && t[|s| - 1] == s[|s| - 1];
    RunsUnfold(t, s);
  }

  lemma RunsUnfold(t: seq<Bit>, s: seq<Bit>)
    requires s != [] && |t| == |s| + 1 && t[..|s|] == s
    ensures Runs(t) == Grown(Runs(s), t[|s|] == t[|s| - 1])
  {
    hide Grown;
  }

  lemma LastChanged(r: seq<nat>, n: nat)
    requires r != []
    ensures RunValues(r[|r| - 1 := n]) == RunValues(r) + RunValue(n) - RunValue(r[|r| - 1])
  {
    assert r[|r| - 1 := n][..|r| - 1] == r[..|r| - 1];
  }

  lemma RunAdded(r: seq<nat>, n: nat)
    ensures RunValues(r + [n]) == RunValues(r) + RunValue(n)
  {
    assert (r + [n])[..|r|] == r;
  }

  // --- lines of an image -----------------------------------------------------------------------

  ghost predicate Whole(image: Image, n: nat) {
    forall x | InSquare(x, n) :: x in image
  }

  /** Place b of line a: a row in pass 0, a column in pass 1. */
  function LineCell(pass: nat, a: int, b: int): Cell {
    if pass == 0 then Cell(a, b) else Cell(b, a)
  }

  /** The first k modules of a line. */
  ghost function Line(image: Image, n: nat, pass: nat, a: nat, k: nat): (s: seq<Bit>)
    requires Whole(image, n) && a < n && k <= n
    ensures |s| == k
  {
    if k == 0 then [] else Line(image, n, pass, a, k - 1) + [image[LineCell(pass, a, k - 1)]]
  }

  /** The cost of the runs in the first a lines of a pass. */
  ghost function LinesScore(image: Image, n: nat, pass: nat, a: nat): nat
    requires Whole(image, n) && a <= n
  {
    if a == 0 then 0 else LinesScore(image, n, pass, a - 1) + RunValues(Runs(Line(image, n, pass, a - 1, n)))
  }

  // --- features counted where they stand -------------------------------------------------------

  datatype Feature = UniformBlock | FinderLike(pass: nat) | DarkModule

  /** Module i of line a is light, or lies outside the symbol. */
  ghost predicate LightAt(image: Image, n: nat, pass: nat, a: int, i: int)
    requires Whole(image, n) && 0 <= a < n
  {
    0 <= i < n ==> image[LineCell(pass, a, i)] == 0
  }

  /** Four modules from `from` on are light or outside. */
  ghost predicate Light(image: Image, n: nat, pass: nat, a: int, from: int)
    requires Whole(image, n) && 0 <= a < n
  {
    forall i | from <= i < from + 4 :: LightAt(image, n, pass, a, i)
  }

  function PatternAt(i: nat): Bit {
    if i == 1 || i == 5 then 0 else 1
  }

  /** The finder-like pattern 1011101 stands in line a at place b. */
  ghost predicate FinderPattern(image: Image, n: nat, pass: nat, a: int, b: int)
    requires Whole(image, n) && 0 <= a < n && 0 <= b && b + 6 < n
  {
    forall i | 0 <= i < 7 :: image[LineCell(pass, a, b + i)] == PatternAt(i)
  }

  ghost predicate Holds(f: Feature, image: Image, n: nat, x: Cell)
    requires Whole(image, n)
  {
    match f
    case UniformBlock =>
      0 <= x.row < n - 1 && 0 <= x.col < n - 1 &&
      image[x] == image[Cell(x.row, x.col + 1)] == image[Cell(x.row + 1, x.col)] == image[Cell(x.row + 1, x.col + 1)]
    case FinderLike(pass) =>
      0 <= x.row < n && 0 <= x.col && x.col + 6 < n && FinderPattern(image, n, pass, x.row, x.col) &&
      (Light(image, n, pass, x.row, x.col - 4) || Light(image, n, pass, x.row, x.col + 7))
    case DarkModule => InSquare(x, n) && image[x] == 1
  }

  /** The cells with a feature among the first m rows of `width` cells and the first k of the next. */
  ghost function Found(f: Feature, image: Image, n: nat, width: nat, m: nat, k: nat): set<Cell>
    requires Whole(image, n)
    decreases m, k, n
  {
    if k > 0 then
      var rest := Found(f, image, n, width, m, k - 1);
      if Holds(f, image, n, Cell(m, k - 1)) then rest + {Cell(m, k - 1)} else rest
    else if m > 0 then Found(f, image, n, width, m - 1, width)
    else {}
  }

  lemma {:induction false} FoundAt(f: Feature, image: Image, n: nat, width: nat, m: nat, k: nat, x: Cell)
    requires Whole(image, n) && k <= width
    ensures x in Found(f, image, n, width, m, k) <==>
            Holds(f, image, n, x) && 0 <= x.row && 0 <= x.col < width && (x.row < m || (x.row == m && x.col < k))
    decreases m, k
  {
    if k > 0 {
      FoundAt(f, image, n, width, m, k - 1, x);
      if x == Cell(m, k - 1) {
      } else if x.row == m {
        assert x.col != k - 1;
      }
    } else if m > 0 {
      FoundAt(f, image, n, width, m - 1, width, x);
    }
  }

  /** One more cell looked at. */
  lemma FoundNext(f: Feature, image: Image, n: nat, width: nat, m: nat, k: nat)
    requires Whole(image, n) && k < width
    ensures |Found(f, image, n, width, m, k + 1)| ==
            |Found(f, image, n, width, m, k)| + if Holds(f, image, n, Cell(m, k)) then 1 else 0
  {
    FoundAt(f, image, n, width, m, k, Cell(m, k));
  }

  /** The number of places where a feature stands in the whole symbol. */
  ghost function Count(f: Feature, image: Image, n: nat): nat
    requires Whole(image, n)
  {
    |Found(f, image, n, n, n, 0)|
  }

  /** The cells counted are exactly those with the feature. */
  lemma CountsAll(f: Feature, image: Image, n: nat, x: Cell)
    requires Whole(image, n)
    ensures x in Found(f, image, n, n, n, 0) <==> Holds(f, image, n, x)
  {
    FoundAt(f, image, n, n, n, 0, x);
  }

  /** Ten for every full five per cent the share of dark modules is away from a half. */
  function Balance(dark: nat, n: nat): nat
    requires n > 0
  {
    SquareIsPositive(n);
    Tenths(Abs(dark * 100 - 50 * (n * n)), n * n)
  }

  function Tenths(deviation: nat, area: nat): nat
    requires area > 0
  {
    QuotientIsNat(deviation, 5 * area);
    deviation / (5 * area) * 10
  }

  lemma QuotientIsNat(a: nat, b: nat)
    requires b > 0
    ensures a / b >= 0
  {
  }

  lemma SquareIsPositive(n: nat)
    requires n > 0
    ensures n * n > 0
  {
  }

  /** The penalty of a symbol of n by n modules. */
  ghost function Penalty(image: Image, n: nat): nat
    requires Whole(image, n) && n > 0
  {
    LinesScore(image, n, 0, n) + LinesScore(image, n, 1, n)
    + 3 * Count(UniformBlock, image, n)
    + 40 * (Count(FinderLike(0), image, n) + Count(FinderLike(1), image, n))
    + Balance(Count(DarkModule, image, n), n)
  }

  // --- the loops -------------------------------------------------------------------------------

  /** The loops of rule 1 over one line. */
  method ScoreLine(grid: array2<Bit>, pass: nat, a: nat, start: nat) returns (score: nat)
    requires grid.Length0 == grid.Length1 && a < grid.Length0 && Whole(Contents(grid), grid.Length0)
    ensures score == start + RunValues(Runs(Line(Contents(grid), grid.Length0, pass, a, grid.Length0)))
  {
    hide Runs, InGrid, Contents;
    var size := grid.Length0;
    ghost var image := Contents(grid);
    ContentsAt(grid);
    score := start;
    var run := 1;
    ghost var s := Line(image, size, pass, a, 1);
    FirstRun(s);
    for b := 1 to size
      invariant s == Line(image, size, pass, a, b) && s[b - 1] == image[LineCell(pass, a, b - 1)]
      invariant run == LastRun(s)
      invariant score == start + RunValues(Runs(s))
    {
      var prev := if pass == 0 then grid[a, b - 1] else grid[b - 1, a];
      var cur := if pass == 0 then grid[a, b] else grid[b, a];
      assert prev == image[LineCell(pass, a, b - 1)] && cur == image[LineCell(pass, a, b)];
      RunsExtended(s, cur);
      s := s + [cur];
      if cur == prev {
        run := run + 1;
        if run == 5 {
          score := score + 3;
        } else if run > 5 {
          score := score + 1;
        }
      } else {
        run := 1;
      }
    }
  }

  lemma FirstRun(s: seq<Bit>)
    requires |s| == 1
    ensures LastRun(s) == 1 && RunValues(Runs(s)) == 0
  {
    assert Runs(s) == [1];
    assert [1][..0] == [];
  }

  method ScoreRuns(grid: array2<Bit>) returns (score: nat)
    requires grid.Length0 == grid.Length1 && Whole(Contents(grid), grid.Length0)
    ensures var n := grid.Length0;
            score == LinesScore(Contents(grid), n, 0, n) + LinesScore(Contents(grid), n, 1, n)
  {
    hide Line, Runs, RunValues, Contents;
    var size := grid.Length0;
    ghost var image := Contents(grid);
    score := 0;
    for a := 0 to size
      invariant score == LinesScore(image, size, 0, a)
    {
      score := ScoreLine(grid, 0, a, score);
    }
    for a := 0 to size
      invariant score == LinesScore(image, size, 0, size) + LinesScore(image, size, 1, a)
    {
      score := ScoreLine(grid, 1, a, score);
    }
  }

  /** Cells without the feature add nothing to the count. */
  lemma {:induction false} FoundSkip(f: Feature, image: Image, n: nat, m: nat, k: nat, k': nat)
    requires Whole(image, n) && k <= k' <= n
    requires forall c | k <= c < k' :: !Holds(f, image, n, Cell(m, c))
    ensures |Found(f, image, n, n, m, k')| == |Found(f, image, n, n, m, k)|
    decreases k'
  {
    if k < k' {
      FoundSkip(f, image, n, m, k, k' - 1);
      FoundNext(f, image, n, n, m, k' - 1);
    }
  }

  /** A row seen in full. */
  lemma RowDone(f: Feature, image: Image, n: nat, m: nat)
    requires Whole(image, n)
    ensures |Found(f, image, n, n, m + 1, 0)| == |Found(f, image, n, n, m, n)|
  {
  }

  method ScoreBlocks(grid: array2<Bit>, start: nat) returns (score: nat)
    requires grid.Length0 == grid.Length1 > 0 && Whole(Contents(grid), grid.Length0)
    ensures score == start + 3 * Count(UniformBlock, Contents(grid), grid.Length0)
  {
    hide Found, Contents;
    var size := grid.Length0;
    ghost var image := Contents(grid);
    score := start;
    NoneFound(UniformBlock, image, size);
    for r := 0 to size - 1
      invariant score == start + 3 * |Found(UniformBlock, image, size, size, r, 0)|
    {
      score := ScoreBlockRow(grid, r, score);
      FoundSkip(UniformBlock, image, size, r, size - 1, size);
      RowDone(UniformBlock, image, size, r);
    }
    FoundSkip(UniformBlock, image, size, size - 1, 0, size);
    RowDone(UniformBlock, image, size, size - 1);
  }

  /** Rule 2 along one row. */
  method ScoreBlockRow(grid: array2<Bit>, r: nat, start: nat) returns (score: nat)
    requires grid.Length0 == grid.Length1 && r < grid.Length0 - 1 && Whole(Contents(grid), grid.Length0)
    ensures var n, image := grid.Length0, Contents(grid);
            score == start + 3 * (|Found(UniformBlock, image, n, n, r, n - 1)|
                                  - |Found(UniformBlock, image, n, n, r, 0)|)
  {
    hide Found, Contents;
    var size := grid.Length0;
    ghost var image := Contents(grid);
    score := start;
    for c := 0 to size - 1
      invariant score == start + 3 * (|Found(UniformBlock, image, size, size, r, c)|
                                      - |Found(UniformBlock, image, size, size, r, 0)|)
    {
      FoundNext(UniformBlock, image, size, size, r, c);
      var uniform := IsUniform(grid, r, c);
      if uniform {
        score := score + 3;
      }
    }
  }

  lemma NoneFound(f: Feature, image: Image, n: nat)
    requires Whole(image, n)
    ensures |Found(f, image, n, n, 0, 0)| == 0
  {
  }

  method IsUniform(grid: array2<Bit>, r: nat, c: nat) returns (uniform: bool)
    requires grid.Length0 == grid.Length1 && r < grid.Length0 - 1 && c < grid.Length0 - 1
    requires Whole(Contents(grid), grid.Length0)
    ensures uniform <==> Holds(UniformBlock, Contents(grid), grid.Length0, Cell(r, c))
  {
    ContentsAt(grid);
    var v := grid[r, c];
    uniform := v == grid[r, c + 1] && v == grid[r + 1, c] && v == grid[r + 1, c + 1];
  }

  /** The places with a finder-like pattern, along rows and along columns, before cell (a, b). */
  ghost function BothFound(image: Image, n: nat, a: nat, b: nat): nat
    requires Whole(image, n)
  {
    |Found(FinderLike(0), image, n, n, a, b)| + |Found(FinderLike(1), image, n, n, a, b)|
  }

  lemma BothRowDone(image: Image, n: nat, a: nat, b: nat)
    requires Whole(image, n) && a < n && b <= n && b + 6 >= n
    ensures BothFound(image, n, a + 1, 0) == BothFound(image, n, a, b)
  {
    hide Found;
    FoundSkip(FinderLike(0), image, n, a, b, n);
    FoundSkip(FinderLike(1), image, n, a, b, n);
    RowDone(FinderLike(0), image, n, a);
    RowDone(FinderLike(1), image, n, a);
  }

  method ScoreFinderLike(grid: array2<Bit>, start: nat) returns (score: nat)
    requires grid.Length0 == grid.Length1 > 0 && Whole(Contents(grid), grid.Length0)
    ensures var n := grid.Length0;
            score == start + 40 * (Count(FinderLike(0), Contents(grid), n) + Count(FinderLike(1), Contents(grid), n))
  {
    var size := grid.Length0;
    ghost var image := Contents(grid);
    score := start;
    assert BothFound(image, size, 0, 0) == 0 by {
      NoneFound(FinderLike(0), image, size);
      NoneFound(FinderLike(1), image, size);
    }
    assert BothFound(image, size, size, 0) == Count(FinderLike(0), image, size) + Count(FinderLike(1), image, size);
    hide BothFound, Contents, Found;
    for a := 0 to size
      invariant score == start + 40 * BothFound(image, size, a, 0)
    {
      var b := 0;
      while b + 6 < size
        invariant 0 <= b <= size && (b == 0 || b <= size - 6)
        invariant score == start + 40 * BothFound(image, size, a, b)
      {
        score := ScoreFinderLikeAt(grid, a, b, score);
        b := b + 1;
      }
      BothRowDone(image, size, a, b);
    }
  }

  /** Rule 3 at one place, along the row and along the column. */
  method ScoreFinderLikeAt(grid: array2<Bit>, a: nat, b: nat, start: nat) returns (score: nat)
    requires grid.Length0 == grid.Length1 && a < grid.Length0 && b + 6 < grid.Length0
    requires Whole(Contents(grid), grid.Length0)
    ensures var n, image := grid.Length0, Contents(grid);
            score == start + 40 * (BothFound(image, n, a, b + 1) - BothFound(image, n, a, b))
  {
    hide Found, Contents;
    ghost var n, image := grid.Length0, Contents(grid);
    FoundNext(FinderLike(0), image, n, n, a, b);
    FoundNext(FinderLike(1), image, n, n, a, b);
    score := start;
    for pass := 0 to 2
      invariant score == start + (if pass > 0 && Holds(FinderLike(0), image, n, Cell(a, b)) then 40 else 0)
                               + (if pass > 1 && Holds(FinderLike(1), image, n, Cell(a, b)) then 40 else 0)
    {
      var like := IsFinderLike(grid, pass, a, b);
      if like {
        score := score + 40;
      }
    }
  }

  method IsFinderLike(grid: array2<Bit>, pass: nat, a: nat, b: nat) returns (like: bool)
    requires grid.Length0 == grid.Length1 && a < grid.Length0 && b + 6 < grid.Length0
    requires Whole(Contents(grid), grid.Length0)
    ensures like <==> Holds(FinderLike(pass), Contents(grid), grid.Length0, Cell(a, b))
  {
    ghost var image := Contents(grid);
    ContentsAt(grid);
    for i := 0 to 7
      invariant forall k | 0 <= k < i :: image[LineCell(pass, a, b + k)] == PatternAt(k)
    {
      var v := if pass == 0 then grid[a, b + i] else grid[b + i, a];
      assert v == image[LineCell(pass, a, b + i)];
      if v != PatternAt(i) {
        return false;
      }
    }
    var before := IsLight(grid, pass, a, b - 4);
    if before {
      return true;
    }
    like := IsLight(grid, pass, a, b + 7);
  }

  method IsLight(grid: array2<Bit>, pass: nat, a: nat, from: int) returns (light: bool)
    requires grid.Length0 == grid.Length1 && a < grid.Length0 && Whole(Contents(grid), grid.Length0)
    ensures light <==> Light(Contents(grid), grid.Length0, pass, a, from)
  {
    var size := grid.Length0;
    ghost var image := Contents(grid);
    ContentsAt(grid);
    for i := from to from + 4
      invariant forall k | from <= k < i :: LightAt(image, size, pass, a, k)
    {
      if 0 <= i < size {
        var v := if pass == 0 then grid[a, i] else grid[i, a];
        assert v == image[LineCell(pass, a, i)];
        if v != 0 {
          assert !LightAt(image, size, pass, a, i);
          return false;
        }
      }
    }
    return true;
  }

  method CountDark(grid: array2<Bit>) returns (dark: nat)
    requires grid.Length0 == grid.Length1 && Whole(Contents(grid), grid.Length0)
    ensures dark == Count(DarkModule, Contents(grid), grid.Length0)
  {
    var size := grid.Length0;
    ghost var image := Contents(grid);
    ContentsAt(grid);
    dark := 0;
    for r := 0 to size
      invariant dark == |Found(DarkModule, image, size, size, r, 0)|
    {
      for c := 0 to size
        invariant dark == |Found(DarkModule, image, size, size, r, c)|
      {
        FoundNext(DarkModule, image, size, size, r, c);
        assert grid[r, c] == image[Cell(r, c)];
        dark := dark + grid[r, c];
      }
      RowDone(DarkModule, image, size, r);
    }
  }

  /** The loops compute the declared score. */
  method ComputePenalty(grid: array2<Bit>) returns (score: nat)
    requires grid.Length0 == grid.Length1 > 0
    ensures Whole(Contents(grid), grid.Length0)
    ensures score == Penalty(Contents(grid), grid.Length0)
  {
    ContentsAt(grid);
    var size := grid.Length0;
    score := ScoreRuns(grid);
    score := ScoreBlocks(grid, score);
    score := ScoreFinderLike(grid, score);
    var dark := CountDark(grid);
    score := score + Balance(dark, size);
  }
}
