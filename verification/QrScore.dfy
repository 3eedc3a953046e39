/** The penalty score in the words of ISO/IEC 18004:2015, 7.8.3.1, rule by rule. */
module QrScore {
  import opened Bits
  import opened QrPlacement
  import opened QrMatrix
  import opened QrPenalty

  /** Rule 1: a run of 5 + i equal modules costs 3 + i. */
  function RunCosts(runs: seq<nat>): nat {
    if runs == [] then 0
    else (if runs[0] >= 5 then 3 + (runs[0] - 5) else 0) + RunCosts(runs[1..])
  }

  function AllCosts(lines: seq<seq<nat>>): nat {
    if lines == [] then 0 else AllCosts(lines[..|lines| - 1]) + RunCosts(lines[|lines| - 1])
  }

  ghost function Row(image: Image, n: nat, a: nat): seq<Bit>
    requires Whole(image, n) && a < n
  {
    seq(n, b requires 0 <= b < n => image[Cell(a, b)])
  }

  ghost function Column(image: Image, n: nat, a: nat): seq<Bit>
    requires Whole(image, n) && a < n
  {
    seq(n, b requires 0 <= b < n => image[Cell(b, a)])
  }

  /** Rule 2: a block of two by two modules of one colour, by its upper left module. */
  ghost predicate IsBlock(image: Image, n: nat, r: int, c: int)
    requires Whole(image, n)
  {
    && 0 <= r && r + 1 < n && 0 <= c && c + 1 < n
    && image[Cell(r, c)] == image[Cell(r + 1, c)]
    && image[Cell(r, c)] == image[Cell(r, c + 1)]
    && image[Cell(r, c)] == image[Cell(r + 1, c + 1)]
  }

  /** Rule 3 in a line of modules: 1011101 from `b` on, with 0000 on one side; outside the symbol is light. */
  predicate IsFinderLike(line: seq<Bit>, b: int) {
    && 0 <= b && b + 7 <= |line| && line[b..b + 7] == [1, 0, 1, 1, 1, 0, 1]
    && ((forall i | b - 4 <= i < b && 0 <= i :: line[i] == 0) ||
        (forall i | b + 7 <= i < b + 11 && i < |line| :: line[i] == 0))
  }

  lemma {:induction false} CostsSnoc(front: seq<nat>, x: nat)
    ensures RunCosts(front + [x]) == RunCosts(front) + if x >= 5 then x - 2 else 0
  {
    if front != [] {
      CostsSnoc(front[1..], x);
      assert (front + [x])[1..] == front[1..] + [x];
    }
  }

  lemma {:induction false} CostsAre(runs: seq<nat>)
    ensures RunCosts(runs) == RunValues(runs)
  {
    if runs != [] {
      var front, x := runs[..|runs| - 1], runs[|runs| - 1];
      assert runs == front + [x];
      CostsAre(front);
      CostsSnoc(front, x);
    }
  }

  lemma {:induction false} LineIs(image: Image, n: nat, pass: nat, a: nat, k: nat)
    requires Whole(image, n) && a < n && k <= n && pass < 2
    ensures Line(image, n, pass, a, k) == (if pass == 0 then Row(image, n, a) else Column(image, n, a))[..k]
  {
    if k > 0 {
      LineIs(image, n, pass, a, k - 1);
    }
  }

  /** A row in pass 0, a column in pass 1. */
  ghost function LineOf(image: Image, n: nat, pass: nat, a: nat): (line: seq<Bit>)
    requires Whole(image, n) && a < n
    ensures |line| == n
  {
    if pass == 0 then Row(image, n, a) else Column(image, n, a)
  }

  lemma LineCosts(image: Image, n: nat, pass: nat, a: nat, runs: seq<nat>)
    requires Whole(image, n) && a < n && pass < 2 && AreMaximalRuns(LineOf(image, n, pass, a), runs)
    ensures RunValues(Runs(Line(image, n, pass, a, n))) == RunCosts(runs)
  {
    var line := LineOf(image, n, pass, a);
    LineIs(image, n, pass, a, n);
    assert line[..n] == line;
    hide AreMaximalRuns, Runs, RunValues, RunCosts, Line, LineOf;
    RunsAreMaximal(line);
    MaximalRunsAreUnique(line, runs, Runs(line));
    CostsAre(runs);
  }

  /** The runs of the lines cost what the score counts for them. */
  lemma {:induction false} LinesCost(image: Image, n: nat, pass: nat, a: nat, runs: seq<seq<nat>>)
    requires Whole(image, n) && a <= n && |runs| == n && pass < 2
    requires forall k | 0 <= k < n :: AreMaximalRuns(LineOf(image, n, pass, k), runs[k])
    ensures LinesScore(image, n, pass, a) == AllCosts(runs[..a])
    decreases a
  {
    hide AreMaximalRuns, Runs, RunValues, RunCosts, Line, LineOf;
    if a > 0 {
      LinesCost(image, n, pass, a - 1, runs);
      LineCosts(image, n, pass, a - 1, runs[a - 1]);
      assert runs[..a][..a - 1] == runs[..a - 1];
    }
  }

  lemma BlocksAre(image: Image, n: nat, x: Cell)
    requires Whole(image, n)
    ensures x in Found(UniformBlock, image, n, n, n, 0) <==> IsBlock(image, n, x.row, x.col)
  {
    CountsAll(UniformBlock, image, n, x);
  }

  lemma PatternIs(line: seq<Bit>, b: nat)
    requires b + 7 <= |line|
    ensures line[b..b + 7] == [1, 0, 1, 1, 1, 0, 1] <==> forall i | 0 <= i < 7 :: line[b + i] == PatternAt(i)
  {
    var part, pattern := line[b..b + 7], [1, 0, 1, 1, 1, 0, 1];
    assert forall i | 0 <= i < 7 :: part[i] == line[b + i] && pattern[i] == PatternAt(i);
    if part == pattern {
      assert forall i | 0 <= i < 7 :: part[i] == pattern[i];
    }
  }

  lemma LightIs(image: Image, n: nat, pass: nat, a: nat, line: seq<Bit>, from: int)
    requires Whole(image, n) && a < n && |line| == n
    requires forall i | 0 <= i < n :: line[i] == image[LineCell(pass, a, i)]
    ensures Light(image, n, pass, a, from) <==> forall i | from <= i < from + 4 && 0 <= i < n :: line[i] == 0
  {
    hide LineCell;
    if forall i | from <= i < from + 4 && 0 <= i < n :: line[i] == 0 {
      forall i | from <= i < from + 4 ensures LightAt(image, n, pass, a, i) {
      }
    }
    if Light(image, n, pass, a, from) {
      forall i | from <= i < from + 4 && 0 <= i < n ensures line[i] == 0 {
        assert LightAt(image, n, pass, a, i);
      }
    }
  }

  lemma FinderLikeIs(image: Image, n: nat, pass: nat, x: Cell, line: seq<Bit>)
    requires Whole(image, n) && 0 <= x.row < n && |line| == n
    requires forall i | 0 <= i < n :: line[i] == image[LineCell(pass, x.row, i)]
    ensures Holds(FinderLike(pass), image, n, x) <==> IsFinderLike(line, x.col)
  {
    hide LineCell, Light, PatternAt;
    if 0 <= x.col && x.col + 7 <= n {
      PatternIs(line, x.col);
      LightIs(image, n, pass, x.row, line, x.col - 4);
      LightIs(image, n, pass, x.row, line, x.col + 7);
    }
  }

  /** The finder-like patterns counted are those in the rows and those in the columns. */
  lemma FinderLikeAre(image: Image, n: nat, x: Cell)
    requires Whole(image, n)
    ensures x in Found(FinderLike(0), image, n, n, n, 0) <==>
            0 <= x.row < n && IsFinderLike(Row(image, n, x.row), x.col)
    ensures x in Found(FinderLike(1), image, n, n, n, 0) <==>
            0 <= x.row < n && IsFinderLike(Column(image, n, x.row), x.col)
  {
    hide IsFinderLike, FinderPattern, Light;
    CountsAll(FinderLike(0), image, n, x);
    CountsAll(FinderLike(1), image, n, x);
    if 0 <= x.row < n {
      FinderLikeIs(image, n, 0, x, Row(image, n, x.row));
      FinderLikeIs(image, n, 1, x, Column(image, n, x.row));
    }
  }

  lemma BalanceIs(dark: nat, n: nat)
    requires n > 0
    ensures exists k: nat ::
              Balance(dark, n) == 10 * k && 5 * k * (n * n) <= Abs(100 * dark - 50 * (n * n)) < 5 * (k + 1) * (n * n)
  {
    SquareIsPositive(n);
    var deviation, area := Abs(100 * dark - 50 * (n * n)), n * n;
    QuotientIsNat(deviation, 5 * area);
    var k: nat := deviation / (5 * area);
    Bounds(deviation, 5 * area);
    Reordered(k, area);
  }

  lemma Bounds(a: nat, d: nat)
    requires d > 0
    ensures a / d * d <= a < (a / d + 1) * d
  {
  }

  lemma Reordered(k: nat, area: nat)
    ensures k * (5 * area) == 5 * k * area && (k + 1) * (5 * area) == 5 * (k + 1) * area
  {
  }

  /**
   * The score: runs in rows and columns, 3 for each block, 40 for each finder-like pattern in a row or a
   * column, and 10 for each full 5% by which the dark modules are away from half of all.
   */
  lemma PenaltyIs(image: Image, n: nat, rows: seq<seq<nat>>, columns: seq<seq<nat>>,
                  blocks: set<Cell>, across: set<Cell>, down: set<Cell>, dark: set<Cell>)
    requires Whole(image, n) && n > 0 && |rows| == |columns| == n
    requires forall a | 0 <= a < n ::
               AreMaximalRuns(Row(image, n, a), rows[a]) && AreMaximalRuns(Column(image, n, a), columns[a])
    requires forall x: Cell :: x in blocks <==> IsBlock(image, n, x.row, x.col)
    requires forall x: Cell :: x in across <==> 0 <= x.row < n && IsFinderLike(Row(image, n, x.row), x.col)
    requires forall x: Cell :: x in down <==> 0 <= x.row < n && IsFinderLike(Column(image, n, x.row), x.col)
    requires forall x: Cell :: x in dark <==> 0 <= x.row < n && 0 <= x.col < n && image[x] == 1
    ensures exists k: nat ::
              && 5 * k * (n * n) <= Abs(100 * |dark| - 50 * (n * n)) < 5 * (k + 1) * (n * n)
              && Penalty(image, n) ==
                 AllCosts(rows) + AllCosts(columns) + 3 * |blocks| + 40 * (|across| + |down|) + 10 * k
  {
    hide AreMaximalRuns, IsFinderLike, IsBlock, Found, LinesScore, AllCosts, Row, Column, Balance, Holds;
    LinesCost(image, n, 0, n, rows);
    LinesCost(image, n, 1, n, columns);
    assert rows[..n] == rows && columns[..n] == columns;
    forall x: Cell
      ensures x in Found(UniformBlock, image, n, n, n, 0) <==> x in blocks
      ensures x in Found(FinderLike(0), image, n, n, n, 0) <==> x in across
      ensures x in Found(FinderLike(1), image, n, n, n, 0) <==> x in down
      ensures x in Found(DarkModule, image, n, n, n, 0) <==> x in dark
    {
      BlocksAre(image, n, x);
      FinderLikeAre(image, n, x);
      DarkAre(image, n, x);
    }
    assert Found(UniformBlock, image, n, n, n, 0) == blocks && Found(DarkModule, image, n, n, n, 0) == dark;
    assert Found(FinderLike(0), image, n, n, n, 0) == across && Found(FinderLike(1), image, n, n, n, 0) == down;
    BalanceIs(|dark|, n);
  }

  lemma DarkAre(image: Image, n: nat, x: Cell)
    requires Whole(image, n)
    ensures x in Found(DarkModule, image, n, n, n, 0) <==> 0 <= x.row < n && 0 <= x.col < n && image[x] == 1
  {
    CountsAll(DarkModule, image, n, x);
  }
}
