/** The format and version words as the standard lists them, and why its BCH codes give exactly these. */
module QrWords {
  import opened Bits
  import opened QrBch

  /** The mask over the format information: 101010000010010. */
  const FORMAT_MASK: nat := 0x5412

  /** The format information of level M, by mask (ISO/IEC 18004:2015, Table C.1). */
  function FormatWord(mask: nat): nat
    requires mask < 8
  {
    [0x5412, 0x5125, 0x5e7c, 0x5b4b, 0x45f9, 0x40ce, 0x4f97, 0x4aa0][mask]
  }

  /** The version information, from version 7 on (ISO/IEC 18004:2015, Table D.1). */
  function VersionWord(version: nat): nat
    requires 7 <= version <= 15
  {
    [0x07c94, 0x085bc, 0x09a99, 0x0a4d3, 0x0bbf6, 0x0c762, 0x0d847, 0x0e60d, 0x0f928][version - 7]
  }

  // --- evaluation ------------------------------------------------------------------------------

  lemma SixtyFourth(a: nat)
    ensures a / 8 / 8 == a / 64
  {
  }

  /** Six bits more, given the exclusive or of the bits above them. */
  lemma XorSix(a: nat, b: nat, rest: nat, c: nat)
    requires Xor(a / 64, b / 64) == rest && c == Three(a, b, Three(a / 8, b / 8, rest))
    ensures Xor(a, b) == c
  {
    hide Three, Xor;
    SixtyFourth(a);
    SixtyFourth(b);
    XorThree(a / 8, b / 8, rest);
    XorThree(a, b, Three(a / 8, b / 8, rest));
  }

  lemma PowersProduct(g: nat)
    ensures PolyMul(g, 1) == g && PolyMul(g, 2) == 2 * g
    ensures PolyMul(g, 4) == 4 * g && PolyMul(g, 8) == 8 * g
  {
    hide PolyMul;
    PolyMulOne(g);
    PolyMulOne(2 * g);
    PolyMulOne(4 * g);
    PolyMulOne(8 * g);
    PolyMulEven(g, 1);
    PolyMulEven(2 * g, 1);
    PolyMulEven(g, 2);
    PolyMulEven(4 * g, 1);
    PolyMulEven(2 * g, 2);
    PolyMulEven(g, 4);
  }

  /** The product by a sum without carries. */
  lemma SumProduct(g: nat, q: nat, k: nat, r: nat)
    requires r < Pow2(k)
    ensures PolyMul(g, q * Pow2(k) + r) == Xor(PolyMul(g, q * Pow2(k)), PolyMul(g, r))
  {
    hide Pow2, Xor, PolyMul;
    XorDisjoint(q, r, k);
    PolyMulXor(g, q * Pow2(k), r);
  }

  /** The first products by a polynomial, as sums of it shifted. */
  lemma SmallProducts(g: nat)
    ensures PolyMul(g, 3) == Xor(2 * g, g) && PolyMul(g, 5) == Xor(4 * g, g) && PolyMul(g, 6) == Xor(4 * g, 2 * g)
    ensures PolyMul(g, 7) == Xor(4 * g, PolyMul(g, 3))
  {
    hide Xor, PolyMul;
    PowersProduct(g);
    SumProduct(g, 1, 1, 1);
    SumProduct(g, 1, 2, 1);
    SumProduct(g, 1, 2, 2);
    SumProduct(g, 1, 2, 3);
  }

  lemma LargerProducts(g: nat)
    ensures PolyMul(g, 9) == Xor(8 * g, g) && PolyMul(g, 10) == Xor(8 * g, 2 * g)
    ensures PolyMul(g, 11) == Xor(8 * g, PolyMul(g, 3)) && PolyMul(g, 12) == Xor(8 * g, 4 * g)
    ensures PolyMul(g, 13) == Xor(8 * g, PolyMul(g, 5)) && PolyMul(g, 14) == Xor(8 * g, PolyMul(g, 6))
    ensures PolyMul(g, 15) == Xor(8 * g, PolyMul(g, 7))
  {
    hide Xor, PolyMul;
    PowersProduct(g);
    SumProduct(g, 1, 3, 1);
    SumProduct(g, 1, 3, 2);
    SumProduct(g, 1, 3, 3);
    SumProduct(g, 1, 3, 4);
    SumProduct(g, 1, 3, 5);
    SumProduct(g, 1, 3, 6);
    SumProduct(g, 1, 3, 7);
  }

  // --- the format words ------------------------------------------------------------------------

  lemma Generator3()
    ensures Xor(0xa6e, 0x537) == 0xf59
  {
    hide Xor;
    XorZero(0);
    XorSix(0x29, 0x14, 0x0, 0x3d);
    XorSix(0xa6e, 0x537, 0x3d, 0xf59);
  }

  lemma Generator5()
    ensures Xor(0x14dc, 0x537) == 0x11eb
  {
    hide Xor;
    XorZero(0);
    XorSix(0x1, 0x0, 0x0, 0x1);
    XorSix(0x53, 0x14, 0x1, 0x47);
    XorSix(0x14dc, 0x537, 0x47, 0x11eb);
  }

  lemma Generator6()
    ensures Xor(0x14dc, 0xa6e) == 0x1eb2
  {
    hide Xor;
    XorZero(0);
    XorSix(0x1, 0x0, 0x0, 0x1);
    XorSix(0x53, 0x29, 0x1, 0x7a);
    XorSix(0x14dc, 0xa6e, 0x7a, 0x1eb2);
  }

  lemma Generator7()
    ensures Xor(0x14dc, 0xf59) == 0x1b85
  {
    hide Xor;
    XorZero(0);
    XorSix(0x1, 0x0, 0x0, 0x1);
    XorSix(0x53, 0x3d, 0x1, 0x6e);
    XorSix(0x14dc, 0xf59, 0x6e, 0x1b85);
  }

  lemma Unmasked0()
    ensures Xor(0x5412, 0x5412) == 0x0
  {
    hide Xor;
    XorZero(0);
    XorSix(0x5, 0x5, 0x0, 0x0);
    XorSix(0x150, 0x150, 0x0, 0x0);
    XorSix(0x5412, 0x5412, 0x0, 0x0);
  }

  lemma Unmasked1()
    ensures Xor(0x5125, 0x5412) == 0x537
  {
    hide Xor;
    XorZero(0);
    XorSix(0x5, 0x5, 0x0, 0x0);
    XorSix(0x144, 0x150, 0x0, 0x14);
    XorSix(0x5125, 0x5412, 0x14, 0x537);
  }

  lemma Unmasked2()
    ensures Xor(0x5e7c, 0x5412) == 0xa6e
  {
    hide Xor;
    XorZero(0);
    XorSix(0x5, 0x5, 0x0, 0x0);
    XorSix(0x179, 0x150, 0x0, 0x29);
    XorSix(0x5e7c, 0x5412, 0x29, 0xa6e);
  }

  lemma Unmasked3()
    ensures Xor(0x5b4b, 0x5412) == 0xf59
  {
    hide Xor;
    XorZero(0);
    XorSix(0x5, 0x5, 0x0, 0x0);
    XorSix(0x16d, 0x150, 0x0, 0x3d);
    XorSix(0x5b4b, 0x5412, 0x3d, 0xf59);
  }

  lemma Unmasked4()
    ensures Xor(0x45f9, 0x5412) == 0x11eb
  {
    hide Xor;
    XorZero(0);
    XorSix(0x4, 0x5, 0x0, 0x1);
    XorSix(0x117, 0x150, 0x1, 0x47);
    XorSix(0x45f9, 0x5412, 0x47, 0x11eb);
  }

  lemma Unmasked5()
    ensures Xor(0x40ce, 0x5412) == 0x14dc
  {
    hide Xor;
    XorZero(0);
    XorSix(0x4, 0x5, 0x0, 0x1);
    XorSix(0x103, 0x150, 0x1, 0x53);
    XorSix(0x40ce, 0x5412, 0x53, 0x14dc);
  }

  lemma Unmasked6()
    ensures Xor(0x4f97, 0x5412) == 0x1b85
  {
    hide Xor;
    XorZero(0);
    XorSix(0x4, 0x5, 0x0, 0x1);
    XorSix(0x13e, 0x150, 0x1, 0x6e);
    XorSix(0x4f97, 0x5412, 0x6e, 0x1b85);
  }

  lemma Unmasked7()
    ensures Xor(0x4aa0, 0x5412) == 0x1eb2
  {
    hide Xor;
    XorZero(0);
    XorSix(0x4, 0x5, 0x0, 0x1);
    XorSix(0x12a, 0x150, 0x1, 0x7a);
    XorSix(0x4aa0, 0x5412, 0x7a, 0x1eb2);
  }

  /** The word listed is the code word of its data bits, under the mask. */
  lemma FormatWordCodes(mask: nat)
    requires mask < 8
    ensures Divides(0x537, Xor(FormatWord(mask), FORMAT_MASK)) && Xor(FormatWord(mask), FORMAT_MASK) / 1024 == mask
  {
    hide Xor, PolyMul;
    var quotient := [0, 1, 2, 3, 5, 4, 7, 6][mask];
    FormatProduct(quotient);
    match mask
    case 0 => Unmasked0();
    case 1 => Unmasked1();
    case 2 => Unmasked2();
    case 3 => Unmasked3();
    case 4 => Unmasked4();
    case 5 => Unmasked5();
    case 6 => Unmasked6();
    case _ => Unmasked7();
    assert PolyMul(0x537, quotient) == Xor(FormatWord(mask), FORMAT_MASK);
  }

  lemma FormatProduct(q: nat)
    requires q < 8
    ensures PolyMul(0x537, q) == [0, 0x537, 0xa6e, 0xf59, 0x14dc, 0x11eb, 0x1eb2, 0x1b85][q]
  {
    hide Xor;
    assert PolyMul(0x537, 0) == 0;
    hide PolyMul;
    PowersProduct(0x537);
    SmallProducts(0x537);
    Generator3();
    Generator5();
    Generator6();
    Generator7();
  }

  /** Data bits and divisibility leave no word but the one listed. */
  lemma FormatWordIs(bits: nat, mask: nat)
    requires mask < 8 && Divides(0x537, Xor(bits, FORMAT_MASK)) && Xor(bits, FORMAT_MASK) / 1024 == mask
    ensures bits == FormatWord(mask)
  {
    hide Xor, Divides, FormatWord;
    FormatWordCodes(mask);
    GeneratorDegrees();
    SameData(0x537, 10, Xor(bits, FORMAT_MASK), Xor(FormatWord(mask), FORMAT_MASK));
    XorCancel(bits, FORMAT_MASK);
    XorCancel(FormatWord(mask), FORMAT_MASK);
  }

  lemma GeneratorDegrees()
    ensures Pow2(10) == 1024 && Degree(0x537, 10) && Pow2(12) == 4096 && Degree(0x1f25, 12)
  {
    assert Pow2(6) == 64;
  }

  // --- the version words -----------------------------------------------------------------------

  lemma Version3()
    ensures Xor(0x3e4a, 0x1f25) == 0x216f
  {
    hide Xor;
    XorZero(0);
    XorSix(0x3, 0x1, 0x0, 0x2);
    XorSix(0xf9, 0x7c, 0x2, 0x85);
    XorSix(0x3e4a, 0x1f25, 0x85, 0x216f);
  }

  lemma Version5()
    ensures Xor(0x7c94, 0x1f25) == 0x63b1
  {
    hide Xor;
    XorZero(0);
    XorSix(0x7, 0x1, 0x0, 0x6);
    XorSix(0x1f2, 0x7c, 0x6, 0x18e);
    XorSix(0x7c94, 0x1f25, 0x18e, 0x63b1);
  }

  lemma Version6()
    ensures Xor(0x7c94, 0x3e4a) == 0x42de
  {
    hide Xor;
    XorZero(0);
    XorSix(0x7, 0x3, 0x0, 0x4);
    XorSix(0x1f2, 0xf9, 0x4, 0x10b);
    XorSix(0x7c94, 0x3e4a, 0x10b, 0x42de);
  }

  lemma Version7()
    ensures Xor(0x7c94, 0x216f) == 0x5dfb
  {
    hide Xor;
    XorZero(0);
    XorSix(0x7, 0x2, 0x0, 0x5);
    XorSix(0x1f2, 0x85, 0x5, 0x177);
    XorSix(0x7c94, 0x216f, 0x177, 0x5dfb);
  }

  lemma Version9()
    ensures Xor(0xf928, 0x1f25) == 0xe60d
  {
    hide Xor;
    XorZero(0);
    XorSix(0xf, 0x1, 0x0, 0xe);
    XorSix(0x3e4, 0x7c, 0xe, 0x398);
    XorSix(0xf928, 0x1f25, 0x398, 0xe60d);
  }

  lemma Version10()
    ensures Xor(0xf928, 0x3e4a) == 0xc762
  {
    hide Xor;
    XorZero(0);
    XorSix(0xf, 0x3, 0x0, 0xc);
    XorSix(0x3e4, 0xf9, 0xc, 0x31d);
    XorSix(0xf928, 0x3e4a, 0x31d, 0xc762);
  }

  lemma Version11()
    ensures Xor(0xf928, 0x216f) == 0xd847
  {
    hide Xor;
    XorZero(0);
    XorSix(0xf, 0x2, 0x0, 0xd);
    XorSix(0x3e4, 0x85, 0xd, 0x361);
    XorSix(0xf928, 0x216f, 0x361, 0xd847);
  }

  lemma Version12()
    ensures Xor(0xf928, 0x7c94) == 0x85bc
  {
    hide Xor;
    XorZero(0);
    XorSix(0xf, 0x7, 0x0, 0x8);
    XorSix(0x3e4, 0x1f2, 0x8, 0x216);
    XorSix(0xf928, 0x7c94, 0x216, 0x85bc);
  }

  lemma Version13()
    ensures Xor(0xf928, 0x63b1) == 0x9a99
  {
    hide Xor;
    XorZero(0);
    XorSix(0xf, 0x6, 0x0, 0x9);
    XorSix(0x3e4, 0x18e, 0x9, 0x26a);
    XorSix(0xf928, 0x63b1, 0x26a, 0x9a99);
  }

  lemma Version14()
    ensures Xor(0xf928, 0x42de) == 0xbbf6
  {
    hide Xor;
    XorZero(0);
    XorSix(0xf, 0x4, 0x0, 0xb);
    XorSix(0x3e4, 0x10b, 0xb, 0x2ef);
    XorSix(0xf928, 0x42de, 0x2ef, 0xbbf6);
  }

  lemma Version15()
    ensures Xor(0xf928, 0x5dfb) == 0xa4d3
  {
    hide Xor;
    XorZero(0);
    XorSix(0xf, 0x5, 0x0, 0xa);
    XorSix(0x3e4, 0x177, 0xa, 0x293);
    XorSix(0xf928, 0x5dfb, 0x293, 0xa4d3);
  }

  lemma VersionProduct(q: nat)
    requires q == 4 || 8 <= q < 16
    ensures PolyMul(0x1f25, q) == if q == 4 then 0x7c94 else
            [0xf928, 0xe60d, 0xc762, 0xd847, 0x85bc, 0x9a99, 0xbbf6, 0xa4d3][q - 8]
  {
    hide Xor, PolyMul;
    PowersProduct(0x1f25);
    SmallProducts(0x1f25);
    LargerProducts(0x1f25);
    Version3();
    Version5();
    Version6();
    Version7();
    Version9();
    Version10();
    Version11();
    Version12();
    Version13();
    Version14();
    Version15();
  }

  lemma VersionWordCodes(version: nat)
    requires 7 <= version <= 15
    ensures Divides(0x1f25, VersionWord(version)) && VersionWord(version) / 4096 == version
  {
    hide PolyMul;
    var quotient := [4, 12, 13, 15, 14, 10, 11, 9, 8][version - 7];
    VersionProduct(quotient);
    assert PolyMul(0x1f25, quotient) == VersionWord(version);
  }

  lemma VersionWordIs(bits: nat, version: nat)
    requires 7 <= version <= 15 && Divides(0x1f25, bits) && bits / 4096 == version
    ensures bits == VersionWord(version)
  {
    hide Divides, VersionWord;
    VersionWordCodes(version);
    GeneratorDegrees();
    SameData(0x1f25, 12, bits, VersionWord(version));
  }
}
