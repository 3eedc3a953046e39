/** Data masks and format information: writing them into a symbol, and reading the mask number back. */
module QrFormat {
  import opened Bits
  import opened BitStream
  import opened QrBch
  import opened QrMasks
  import opened QrPlacement
  import opened QrRegions
  import opened QrWords

  /** A module flipped where `flip` holds. */
  function Flip(v: Bit, flip: bool): Bit {
    if flip then 1 - v else v
  }

  /** `masked` is `image` with exactly those free modules flipped at which the picture of the mask is dark. */
  ghost predicate IsMasked(image: Image, masked: Image, fixed: set<Cell>, mask: nat)
    requires mask < 8
  {
    && masked.Keys == image.Keys
    && forall x | x in image ::
         x.row >= 0 && x.col >= 0 && masked[x] == Flip(image[x], x !in fixed && Pictured(mask, x))
  }

  method ApplyMask(grid: array2<Bit>, fixed: set<Cell>, mask: nat) returns (masked: array2<Bit>)
    requires mask < 8
    ensures fresh(masked) && masked.Length0 == grid.Length0 && masked.Length1 == grid.Length1
    ensures forall r, c | 0 <= r < grid.Length0 && 0 <= c < grid.Length1 ::
              masked[r, c] != grid[r, c] <==> Cell(r, c) !in fixed && Pictured(mask, Cell(r, c))
    ensures IsMasked(Contents(grid), Contents(masked), fixed, mask)
  {
    hide MaskAt, Pictured;
    masked := new Bit[grid.Length0, grid.Length1](
      (r, c) requires 0 <= r < grid.Length0 && 0 <= c < grid.Length1 reads grid =>
        Flip(grid[r, c], Cell(r, c) !in fixed && MaskAt(mask, Cell(r, c))));
    ContentsAt(grid);
    ContentsAt(masked);
    MasksArePictured(mask);
  }

  /** Flipping twice restores a free module. */
  lemma Unmasks(image: Image, masked: Image, fixed: set<Cell>, mask: nat, x: Cell)
    requires mask < 8 && IsMasked(image, masked, fixed, mask) && x in image
    ensures x.row >= 0 && x.col >= 0
    ensures x !in fixed ==> Flip(masked[x], Pictured(mask, x)) == image[x]
    ensures x in fixed ==> masked[x] == image[x]
  {
  }

  // --- format information ----------------------------------------------------------------------

  /** The 15 bits of format information for five bits of data: BCH code, then the fixed mask. */
  method BchFormat(data: nat) returns (bits: nat)
    requires data < 32
    ensures bits < 32768
    ensures Divides(0x537, Xor(bits, FORMAT_MASK)) && Xor(bits, FORMAT_MASK) / 1024 == data
    ensures data < 8 ==> bits == FormatWord(data)
  {
    hide Xor, Divides, FormatWord, Degree, Pow2;
    Pow2Values();
    GeneratorDegrees();
    var v := Remainder(data, 5, 0x537, 10);
    bits := Xor(data * 1024 + v, FORMAT_MASK);
    XorCancel(data * 1024 + v, FORMAT_MASK);
    XorBound(data * 1024 + v, FORMAT_MASK, 15);
    if data < 8 {
      FormatWordIs(bits, data);
    }
  }

  lemma Pow2Values()
    ensures Pow2(5) == 32 && Pow2(10) == 1024 && Pow2(15) == 32768
  {
    assert Pow2(8) == 256 && Pow2(12) == 4096;
  }

  /** Where bit i of the format information stands around the upper left finder. */
  function FirstCopy(i: nat): Cell {
    if i <= 5 then Cell(i, 8)
    else if i == 6 then Cell(7, 8)
    else if i == 7 then Cell(8, 8)
    else if i == 8 then Cell(8, 7)
    else Cell(8, 14 - i)
  }

  /** Where it stands beside the other two finders. */
  function SecondCopy(size: nat, i: nat): Cell {
    if i < 8 then Cell(8, size - 1 - i) else Cell(size - 15 + i, 8)
  }

  /** Both copies as ISO/IEC 18004:2015 draws them in 7.9.1, bit 14 first: along row 8 and up column 8 for one. */
  lemma FormatPlaces(size: nat, k: nat)
    requires size >= 21 && k < 15
    ensures FirstCopy(14 - k) ==
            [Cell(8, 0), Cell(8, 1), Cell(8, 2), Cell(8, 3), Cell(8, 4), Cell(8, 5), Cell(8, 7), Cell(8, 8),
             Cell(7, 8), Cell(5, 8), Cell(4, 8), Cell(3, 8), Cell(2, 8), Cell(1, 8), Cell(0, 8)][k]
    ensures SecondCopy(size, 14 - k) ==
            [Cell(size - 1, 8), Cell(size - 2, 8), Cell(size - 3, 8), Cell(size - 4, 8), Cell(size - 5, 8),
             Cell(size - 6, 8), Cell(size - 7, 8), Cell(8, size - 8), Cell(8, size - 7), Cell(8, size - 6),
             Cell(8, size - 5), Cell(8, size - 4), Cell(8, size - 3), Cell(8, size - 2), Cell(8, size - 1)][k]
  {
  }

  /** The first n bits written into the first copy. */
  function WriteFirst(image: Image, bits: nat, n: nat): Image
    decreases n, bits
  {
    if n == 0 then image else WriteFirst(image, bits, n - 1)[FirstCopy(n - 1) := BitAt(bits, n - 1)]
  }

  function WriteSecond(image: Image, size: nat, bits: nat, n: nat): Image
    decreases n, size
  {
    if n == 0 then image else WriteSecond(image, size, bits, n - 1)[SecondCopy(size, n - 1) := BitAt(bits, n - 1)]
  }

  /** Both copies and the dark module. */
  function WithFormat(image: Image, size: nat, bits: nat): Image {
    WriteSecond(WriteFirst(image, bits, 15), size, bits, 15)[Cell(size - 8, 8) := 1]
  }

  lemma {:induction false} WriteFirstAt(image: Image, bits: nat, n: nat, x: Cell)
    requires n <= 15
    ensures forall i | 0 <= i < n :: FirstCopy(i) in WriteFirst(image, bits, n)
                                     && WriteFirst(image, bits, n)[FirstCopy(i)] == BitAt(bits, i)
    ensures (forall i | 0 <= i < n :: x != FirstCopy(i)) && x in image ==>
              x in WriteFirst(image, bits, n) && WriteFirst(image, bits, n)[x] == image[x]
  {
    if n > 0 {
      WriteFirstAt(image, bits, n - 1, x);
    }
  }

  lemma {:induction false} WriteSecondAt(image: Image, size: nat, bits: nat, n: nat, x: Cell)
    requires n <= 15 && size >= 21
    ensures forall i | 0 <= i < n :: SecondCopy(size, i) in WriteSecond(image, size, bits, n)
                                     && WriteSecond(image, size, bits, n)[SecondCopy(size, i)] == BitAt(bits, i)
    ensures (forall i | 0 <= i < n :: x != SecondCopy(size, i)) && x in image ==>
              x in WriteSecond(image, size, bits, n) && WriteSecond(image, size, bits, n)[x] == image[x]
  {
    if n > 0 {
      WriteSecondAt(image, size, bits, n - 1, x);
    }
  }

  /** After writing, both copies hold the bits, the dark module is dark, and nothing else has changed. */
  lemma WithFormatAt(image: Image, size: nat, bits: nat)
    requires size >= 21
    ensures var w := WithFormat(image, size, bits);
            && (forall i | 0 <= i < 15 :: FirstCopy(i) in w && w[FirstCopy(i)] == BitAt(bits, i))
            && (forall i | 0 <= i < 15 :: SecondCopy(size, i) in w && w[SecondCopy(size, i)] == BitAt(bits, i))
            && Cell(size - 8, 8) in w && w[Cell(size - 8, 8)] == 1
            && (forall x | x in image && !InFormat(size, x) :: x in w && w[x] == image[x])
  {
    var first := WriteFirst(image, bits, 15);
    WriteFirstAt(image, bits, 15, Cell(0, 0));
    WriteSecondAt(first, size, bits, 15, Cell(0, 0));
    forall i | 0 <= i < 15
      ensures FirstCopy(i) in WithFormat(image, size, bits) &&
              WithFormat(image, size, bits)[FirstCopy(i)] == BitAt(bits, i)
    {
      WriteSecondAt(first, size, bits, 15, FirstCopy(i));
    }
    forall x | x in image && !InFormat(size, x)
      ensures x in WithFormat(image, size, bits) && WithFormat(image, size, bits)[x] == image[x]
    {
      WriteFirstAt(image, bits, 15, x);
      WriteSecondAt(first, size, bits, 15, x);
    }
  }

  /** One module more of the first copy. */
  method WriteFirstBit(grid: array2<Bit>, word: nat, i: nat, x: Cell, ghost image: Image)
    requires InGrid(x, grid) && x == FirstCopy(i) && Contents(grid) == WriteFirst(image, word, i)
    modifies grid
    ensures Contents(grid) == WriteFirst(image, word, i + 1)
  {
    hide Contents, FirstCopy, BitAt;
    Write(grid, x, BitAt(word, i));
  }

  method WriteFirstCopy(grid: array2<Bit>, word: nat)
    requires grid.Length0 == grid.Length1 >= 21
    modifies grid
    ensures Contents(grid) == WriteFirst(old(Contents(grid)), word, 15)
  {
    ghost var image := Contents(grid);
    assert Contents(grid) == WriteFirst(image, word, 0);
    hide WriteFirst, Contents;
    for i := 0 to 6
      invariant Contents(grid) == WriteFirst(image, word, i)
    {
      WriteFirstBit(grid, word, i, Cell(i, 8), image);
    }
    WriteFirstBit(grid, word, 6, Cell(7, 8), image);
    WriteFirstBit(grid, word, 7, Cell(8, 8), image);
    WriteFirstBit(grid, word, 8, Cell(8, 7), image);
    for i := 9 to 15
      invariant Contents(grid) == WriteFirst(image, word, i)
    {
      WriteFirstBit(grid, word, i, Cell(8, 14 - i), image);
    }
  }

  /** One module more of the second copy. */
  method WriteSecondBit(grid: array2<Bit>, word: nat, i: nat, x: Cell, ghost image: Image)
    requires grid.Length0 == grid.Length1 >= 21
    requires InGrid(x, grid) && x == SecondCopy(grid.Length0, i)
    requires Contents(grid) == WriteSecond(image, grid.Length0, word, i)
    modifies grid
    ensures Contents(grid) == WriteSecond(image, grid.Length0, word, i + 1)
  {
    hide Contents, SecondCopy, BitAt;
    Write(grid, x, BitAt(word, i));
  }

  method WriteSecondCopy(grid: array2<Bit>, word: nat)
    requires grid.Length0 == grid.Length1 >= 21
    modifies grid
    ensures Contents(grid) == WriteSecond(old(Contents(grid)), grid.Length0, word, 15)
  {
    var size := grid.Length0;
    ghost var image := Contents(grid);
    assert Contents(grid) == WriteSecond(image, size, word, 0);
    hide WriteSecond, Contents;
    for i := 0 to 8
      invariant Contents(grid) == WriteSecond(image, size, word, i)
    {
      WriteSecondBit(grid, word, i, Cell(8, size - 1 - i), image);
    }
    for i := 8 to 15
      invariant Contents(grid) == WriteSecond(image, size, word, i)
    {
      WriteSecondBit(grid, word, i, Cell(size - 15 + i, 8), image);
    }
  }

  method WriteFormat(grid: array2<Bit>, mask: nat) returns (ghost bits: nat)
    requires grid.Length0 == grid.Length1 >= 21 && mask < 8
    modifies grid
    ensures bits == FormatWord(mask)
    ensures Contents(grid) == WithFormat(old(Contents(grid)), grid.Length0, bits)
  {
    hide WriteFirst, WriteSecond, Contents, Divides, Xor, FormatWord;
    var size := grid.Length0;
    var word := BchFormat(mask);
    bits := word;
    WriteFirstCopy(grid, word);
    WriteSecondCopy(grid, word);
    Write(grid, Cell(size - 8, 8), 1);
  }

  // --- reading ---------------------------------------------------------------------------------

  /** The 15 bits around the upper left finder, bit 14 first. */
  function FormatBits(image: Image): seq<Bit>
    requires forall i | 0 <= i < 15 :: FirstCopy(i) in image
  {
    seq(15, k requires 0 <= k < 15 => image[FirstCopy(14 - k)])
  }

  /** The five data bits of the format information: error correction level and mask. */
  function ReadFormat(image: Image): nat
    requires forall i | 0 <= i < 15 :: FirstCopy(i) in image
  {
    Xor(FromBits(FormatBits(image)), FORMAT_MASK) / 1024
  }

  lemma ReadsFormat(image: Image, bits: nat)
    requires bits < 32768
    requires forall i | 0 <= i < 15 :: FirstCopy(i) in image && image[FirstCopy(i)] == BitAt(bits, i)
    ensures FromBits(FormatBits(image)) == bits
  {
    forall k | 0 <= k < 15 ensures FormatBits(image)[k] == BitsOf(bits, 15)[k] {
      BitsOfAt(bits, 15, k);
    }
    assert FormatBits(image) == BitsOf(bits, 15);
    Pow2Values();
    FromBitsOf(bits, 15);
  }

  /** A symbol with the format word of a mask reads as that mask. */
  lemma ReadsFormatWord(image: Image, mask: nat)
    requires mask < 8
    requires forall i | 0 <= i < 15 :: FirstCopy(i) in image && image[FirstCopy(i)] == BitAt(FormatWord(mask), i)
    ensures ReadFormat(image) == mask
  {
    hide FormatBits, Xor, BitAt;
    ReadsFormat(image, FormatWord(mask));
    FormatWordCodes(mask);
  }
}
