/** The eight data masks: the conditions the encoder computes and the pictures the standard has of them. */
module QrMasks {
  import opened QrPlacement

  /** The eight mask conditions (ISO/IEC 18004:2015, Table 10): true where a data module is flipped. */
  predicate MaskAt(mask: nat, x: Cell)
    requires mask < 8 && x.row >= 0 && x.col >= 0
  {
    var r, c := x.row, x.col;
    match mask
    case 0 => (r + c) % 2 == 0
    case 1 => r % 2 == 0
    case 2 => c % 3 == 0
    case 3 => (r + c) % 3 == 0
    case 4 => (r / 2 + c / 3) % 2 == 0
    case 5 => (r * c) % 2 + (r * c) % 3 == 0
    case 6 => ((r * c) % 2 + (r * c) % 3) % 2 == 0
    case _ => ((r + c) % 2 + (r * c) % 3) % 2 == 0
  }

  /** The tile is dark where the cell falls when the tile is repeated over the symbol. */
  predicate Dark(tile: seq<string>, x: Cell)
    requires x.row >= 0 && x.col >= 0
  {
    tile != [] && |tile[x.row % |tile|]| > 0 &&
    var row := tile[x.row % |tile|];
    row[x.col % |row|] == '#'
  }

  /** The eight masks as ISO/IEC 18004:2015 draws them in 7.8.2: true where a data module is flipped. */
  predicate Pictured(mask: nat, x: Cell)
    requires mask < 8 && x.row >= 0 && x.col >= 0
  {
    match mask
    case 0 => Dark(["#.", ".#"], x)
    case 1 => Dark(["#", "."], x)
    case 2 => Dark(["#.."], x)
    case 3 => Dark(["#..", "..#", ".#."], x)
    case 4 => Dark(["###...", "###...", "...###", "...###"], x)
    case 5 => Dark(["######", "#.....", "#..#..", "#.#.#.", "#..#..", "#....."], x)
    case 6 => Dark(["######", "###...", "##.##.", "#.#.#.", "#.##.#", "#...##"], x)
    case _ => Dark(["#.#.#.", "...###", "#...##", ".#.#.#", "###...", ".###.."], x)
  }

  lemma FirstTile(x: Cell)
    requires x.row >= 0 && x.col >= 0
    ensures (x.row + x.col) % 2 == 0 <==> Dark(["#.", ".#"], x)
  {
    SameParity(x.row, x.col);
  }

  lemma SameParity(r: nat, c: nat)
    ensures (r + c) % 2 == 0 <==> r % 2 == c % 2
  {
    Parity(r / 2 + c / 2, r % 2, c % 2);
  }

  lemma RowTile(x: Cell)
    requires x.row >= 0 && x.col >= 0
    ensures x.row % 2 == 0 <==> Dark(["#", "."], x)
  {
  }

  lemma ColumnTile(x: Cell)
    requires x.row >= 0 && x.col >= 0
    ensures x.col % 3 == 0 <==> Dark(["#.."], x)
  {
  }

  lemma ThirdTile(x: Cell)
    requires x.row >= 0 && x.col >= 0
    ensures (x.row + x.col) % 3 == 0 <==> Dark(["#..", "..#", ".#."], x)
  {
  }

  lemma FourthTile(x: Cell)
    requires x.row >= 0 && x.col >= 0
    ensures (x.row / 2 + x.col / 3) % 2 == 0 <==> Dark(["###...", "###...", "...###", "...###"], x)
  {
    EvenSum(x.row, x.col);
    FourthPicture(x);
  }

  lemma EvenSum(r: nat, c: nat)
    ensures (r / 2 + c / 3) % 2 == 0 <==> (r % 4 < 2 <==> c % 6 < 3)
  {
    Quarters(r);
    Halves(c);
    Parity(r / 4 + c / 6, r % 4 / 2, c % 6 / 3);
  }

  lemma Parity(k: nat, u: nat, v: nat)
    requires u < 2 && v < 2
    ensures (2 * k + u + v) % 2 == 0 <==> u == v
  {
    assert u + v == 2 ==> 2 * k + u + v == 2 * (k + 1);
  }

  lemma FourthPicture(x: Cell)
    requires x.row >= 0 && x.col >= 0
    ensures Dark(["###...", "###...", "...###", "...###"], x) <==> (x.row % 4 < 2 <==> x.col % 6 < 3)
  {
  }

  lemma Quarters(r: nat)
    ensures r / 2 == 2 * (r / 4) + r % 4 / 2
  {
  }

  lemma Halves(c: nat)
    ensures c / 3 == 2 * (c / 6) + c % 6 / 3
  {
  }

  /** Row and column enter a product only by their remainders. */
  lemma ProductBySixths(r: nat, c: nat)
    ensures (r * c) % 2 == ((r % 6) * (c % 6)) % 2 && (r * c) % 3 == ((r % 6) * (c % 6)) % 3
  {
    var a, b, s, t := r / 6, c / 6, r % 6, c % 6;
    assert r == 6 * a + s && c == 6 * b + t;
    Expanded(a, b, s, t);
    Sixths(6 * a * b + a * t + b * s, s * t);
  }

  lemma Expanded(a: nat, b: nat, s: nat, t: nat)
    ensures (6 * a + s) * (6 * b + t) == 6 * (6 * a * b + a * t + b * s) + s * t
  {
  }

  lemma Sixths(k: int, p: int)
    ensures (6 * k + p) % 2 == p % 2 && (6 * k + p) % 3 == p % 3
  {
    var x := 6 * k + p;
    assert 2 * (x / 2 - 3 * k - p / 2) == p % 2 - x % 2;
    assert 3 * (x / 3 - 2 * k - p / 3) == p % 3 - x % 3;
  }

  lemma SmallProduct(s: nat, t: nat)
    requires s < 6
    ensures s * t == if s == 0 then 0 else if s == 1 then t else if s == 2 then 2 * t else if s == 3 then 3 * t
                     else if s == 4 then 4 * t else 5 * t
  {
  }

  lemma FifthTile(s: nat, t: nat)
    requires s < 6 && t < 6
    ensures (s * t) % 2 + (s * t) % 3 == 0 <==>
            Dark(["######", "#.....", "#..#..", "#.#.#.", "#..#..", "#....."], Cell(s, t))
  {
    SmallProduct(s, t);
  }

  lemma FifthMask(x: Cell)
    requires x.row >= 0 && x.col >= 0
    ensures MaskAt(5, x) <==> Dark(["######", "#.....", "#..#..", "#.#.#.", "#..#..", "#....."], x)
  {
    hide Dark;
    ProductBySixths(x.row, x.col);
    FifthTile(x.row % 6, x.col % 6);
    SameSixths(["######", "#.....", "#..#..", "#.#.#.", "#..#..", "#....."], x);
  }

  lemma SixthTile(s: nat, t: nat)
    requires s < 6 && t < 6
    ensures ((s * t) % 2 + (s * t) % 3) % 2 == 0 <==>
            Dark(["######", "###...", "##.##.", "#.#.#.", "#.##.#", "#...##"], Cell(s, t))
  {
    SmallProduct(s, t);
  }

  lemma SixthMask(x: Cell)
    requires x.row >= 0 && x.col >= 0
    ensures MaskAt(6, x) <==> Dark(["######", "###...", "##.##.", "#.#.#.", "#.##.#", "#...##"], x)
  {
    hide Dark;
    ProductBySixths(x.row, x.col);
    SixthTile(x.row % 6, x.col % 6);
    SameSixths(["######", "###...", "##.##.", "#.#.#.", "#.##.#", "#...##"], x);
  }

  lemma SeventhTile(s: nat, t: nat)
    requires s < 6 && t < 6
    ensures ((s + t) % 2 + (s * t) % 3) % 2 == 0 <==>
            Dark(["#.#.#.", "...###", "#...##", ".#.#.#", "###...", ".###.."], Cell(s, t))
  {
    SmallProduct(s, t);
  }

  lemma SeventhMask(x: Cell)
    requires x.row >= 0 && x.col >= 0
    ensures MaskAt(7, x) <==> Dark(["#.#.#.", "...###", "#...##", ".#.#.#", "###...", ".###.."], x)
  {
    hide Dark;
    ProductBySixths(x.row, x.col);
    SumBySixths(x.row, x.col);
    SeventhTile(x.row % 6, x.col % 6);
    SameSixths(["#.#.#.", "...###", "#...##", ".#.#.#", "###...", ".###.."], x);
  }

  lemma SumBySixths(r: nat, c: nat)
    ensures (r + c) % 2 == (r % 6 + c % 6) % 2
  {
    Sixths(r / 6 + c / 6, r % 6 + c % 6);
  }

  /** A tile of six by six looks alike six cells on. */
  lemma SameSixths(tile: seq<string>, x: Cell)
    requires x.row >= 0 && x.col >= 0 && |tile| == 6 && forall row | row in tile :: |row| == 6
    ensures Dark(tile, x) <==> Dark(tile, Cell(x.row % 6, x.col % 6))
  {
  }

  /** The conditions computed are the standard's pictures. */
  lemma MaskIsPictured(mask: nat, x: Cell)
    requires mask < 8 && x.row >= 0 && x.col >= 0
    ensures MaskAt(mask, x) <==> Pictured(mask, x)
  {
    hide Dark;
    if mask == 0 {
      FirstTile(x);
    } else if mask == 1 {
      RowTile(x);
    } else if mask == 2 {
      ColumnTile(x);
    } else if mask == 3 {
      ThirdTile(x);
    } else if mask == 4 {
      FourthTile(x);
    } else if mask == 5 {
      FifthMask(x);
    } else if mask == 6 {
      SixthMask(x);
    } else {
      SeventhMask(x);
    }
  }

  lemma MasksArePictured(mask: nat)
    requires mask < 8
    ensures forall x: Cell | x.row >= 0 && x.col >= 0 :: MaskAt(mask, x) <==> Pictured(mask, x)
  {
    forall x: Cell | x.row >= 0 && x.col >= 0 ensures MaskAt(mask, x) <==> Pictured(mask, x) {
      MaskIsPictured(mask, x);
    }
  }
}
