/** Arithmetic in GF(256) modulo 0x11d, its log tables, and why the tables multiply correctly. */
module Gf256 {
  import opened Bits

  /** Multiplication by the generator alpha = x: double and reduce modulo x^8 + x^4 + x^3 + x^2 + 1. */
  function Xtime(a: Byte): (r: Byte) {
    if a < 128 then 2 * a else XtimeInRange(a); Xor(2 * a, 0x11d)
  }

  lemma XtimeInRange(a: Byte)
    requires a >= 128
    ensures Xor(2 * a, 0x11d) < 256
  {
    assert Pow2(8) == 256;
    XorTop(2 * a, 0x11d, 8);
  }

  /** Carry-less multiplication modulo 0x11d, bit by bit of b. */
  function Mul(a: Byte, b: Byte): (r: Byte)
    decreases b
  {
    if b == 0 then 0
    else
      var rest := Mul(Xtime(a), b / 2);
      XorByte(a, rest);
      if b % 2 == 1 then Xor(a, rest) else rest
  }

  lemma XtimeXor(a: Byte, b: Byte)
    requires Xor(a, b) < 256
    ensures Xtime(Xor(a, b)) == Xor(Xtime(a), Xtime(b))
  {
    hide Xor;
    assert Pow2(7) == 128;
    XorTop(a, b, 7);
    assert Xor(2 * a, 2 * b) == 2 * Xor(a, b) by { XorStep(2 * a, 2 * b); }
    XorSwap(2 * a, if a < 128 then 0 else 0x11d, 2 * b, if b < 128 then 0 else 0x11d);
    XorZero(2 * a);
    XorZero(2 * b);
    XorZero(0x11d);
    XorZero(2 * Xor(a, b));
    XorSelf(0x11d);
  }

  lemma {:induction false} MulXorLeft(a: Byte, c: Byte, b: Byte)
    requires Xor(a, c) < 256
    ensures Mul(Xor(a, c), b) == Xor(Mul(a, b), Mul(c, b))
    decreases b
  {
    if b != 0 {
      XtimeXor(a, c);
      MulXorLeft(Xtime(a), Xtime(c), b / 2);
      var ra, rc := Mul(Xtime(a), b / 2), Mul(Xtime(c), b / 2);
      XorSwap(a, c, ra, rc);
    }
  }

  lemma {:induction false} MulXorRight(a: Byte, b: Byte, c: Byte)
    requires Xor(b, c) < 256
    ensures Mul(a, Xor(b, c)) == Xor(Mul(a, b), Mul(a, c))
    decreases b + c
  {
    XorZero(b);
    XorZero(c);
    XorZero(Mul(a, b));
    XorZero(Mul(a, c));
    if b != 0 && c != 0 {
      XorStep(b, c);
      MulXorRight(Xtime(a), b / 2, c / 2);
      var rb, rc := Mul(Xtime(a), b / 2), Mul(Xtime(a), c / 2);
      MulXorRightBit(a, rb, rc, b % 2, c % 2);
    }
  }
  lemma MulXorRightBit(a: Byte, rb: Byte, rc: Byte, p: Bit, q: Bit)
    ensures var x := if p == 1 then Xor(a, rb) else rb;
            var y := if q == 1 then Xor(a, rc) else rc;
            Xor(x, y) == if p != q then Xor(a, Xor(rb, rc)) else Xor(rb, rc)
  {
    XorSwap(a, rb, a, rc);
    XorSelf(a);
    XorZero(Xor(rb, rc));
    XorAssoc(a, rb, rc);
    XorComm(a, Xor(rb, rc));
    XorAssoc(rb, rc, a);
    XorComm(rc, a);
  }

  lemma {:induction false} XtimeMul(a: Byte, b: Byte)
    ensures Mul(Xtime(a), b) == Xtime(Mul(a, b))
    decreases b
  {
    if b != 0 {
      XtimeMul(Xtime(a), b / 2);
      var rest := Mul(Xtime(a), b / 2);
      XorByte(a, rest);
      XtimeXor(a, rest);
    }
  }

  /** b is its doubled half plus its low bit. */
  lemma HalfXor(b: Byte)
    ensures b / 2 < 128 && b == Xor(Xtime(b / 2), b % 2)
  {
    XorStep(2 * (b / 2), b % 2);
    XorZero(b / 2);
  }

  /** x^8 = x^4 + x^3 + x^2 + 1, applied to any element. */
  lemma {:induction false} Reduce(a: Byte)
    ensures Mul(a, 0x1d) == Mul(Xtime(a), 0x80)
    decreases a
  {
    if a == 0 {
      MulZero(0x1d);
      MulZero(0x80);
    } else if a == 1 {
      ReduceOne();
    } else {
      HalfXor(a);
      Reduce(a / 2);
      Reduce(a % 2);
      ReduceStep(a / 2, a % 2);
    }
  }

  lemma ReduceOne()
    ensures Mul(1, 0x1d) == 0x1d && Mul(2, 0x80) == 0x1d
  {
    assert Xor(1, 2) == 3 && Xor(2, 4) == 6 && Xor(1, 6) == 7 && Xor(8, 16) == 24;
    assert Mul(16, 1) == 16 && Mul(8, 3) == 24;
    assert Xor(1, 7) == 6 && Xor(4, 24) == 28 && Xor(1, 28) == 29;
    assert Mul(4, 7) == 28 && Mul(2, 14) == 28;
    ReduceTop();
  }

  lemma ReduceTop()
    ensures Mul(2, 0x80) == 0x1d
  {
    ReduceTopXor();
    assert Xtime(128) == 29;
    assert Mul(29, 1) == 29 && Mul(128, 2) == 29 && Mul(64, 4) == 29 && Mul(16, 16) == 29;
  }

  lemma ReduceTopXor()
    ensures Xor(256, 0x11d) == 29
  {
    hide Xor;
    XorZero(0);
    XorThree(4, 4, 0);
    XorThree(32, 35, 0);
    XorThree(256, 285, 3);
  }

  lemma ReduceStep(h: Byte, p: Bit)
    requires h < 128 && Xor(Xtime(h), p) < 256
    requires Mul(h, 0x1d) == Mul(Xtime(h), 0x80) && Mul(p, 0x1d) == Mul(Xtime(p), 0x80)
    ensures Mul(Xor(Xtime(h), p), 0x1d) == Mul(Xtime(Xor(Xtime(h), p)), 0x80)
  {
    XtimeXor(Xtime(h), p);
    MulXorLeft(Xtime(h), p, 0x1d);
    MulXorLeft(Xtime(Xtime(h)), Xtime(p), 0x80);
    XtimeMul(h, 0x1d);
    XtimeMul(Xtime(h), 0x80);
  }

  lemma {:induction false} MulZero(b: Byte)
    ensures Mul(0, b) == 0 && Mul(b, 0) == 0
    decreases b
  {
    if b != 0 {
      MulZero(b / 2);
      XorZero(0);
    }
  }

  lemma MulXtime(a: Byte, b: Byte)
    ensures Mul(a, Xtime(b)) == Xtime(Mul(a, b))
  {
    XtimeMul(a, b);
    if b >= 128 {
      var low := b - 128;
      assert b == Xor(128, low) by { HighBit(low); }
      assert Xtime(128) == 0x1d;
      XtimeXor(128, low);
      MulXorRight(a, 0x1d, Xtime(low));
      MulXorRight(Xtime(a), 128, low);
      Reduce(a);
      DoubleRight(a, low);
    } else {
      DoubleRight(a, b);
    }
  }

  lemma DoubleRight(a: Byte, b: Byte)
    requires b < 128
    ensures Mul(a, Xtime(b)) == Mul(Xtime(a), b)
  {
    XorZero(Mul(Xtime(a), b));
  }

  lemma HighBit(low: Byte)
    requires low < 128
    ensures Xor(128, low) == 128 + low
  {
    assert Pow2(7) == 128;
    HighBitAt(low, 7);
  }

  lemma HighBitAt(low: nat, k: nat)
    requires low < Pow2(k)
    ensures Xor(Pow2(k), low) == Pow2(k) + low
  {
    hide Xor;
    if k > 0 {
      HighBitAt(low / 2, k - 1);
      XorStep(Pow2(k), low);
    } else {
      XorZero(1);
    }
  }

  lemma {:induction false} MulOne(b: Byte)
    ensures Mul(1, b) == b && Mul(b, 1) == b
    decreases b
  {
    XorZero(b);
    if b == 1 {
    } else if b != 0 {
      HalfXor(b);
      MulXorRight(1, Xtime(b / 2), b % 2);
      MulXtime(1, b / 2);
      MulOne(b / 2);
      MulOne(b % 2);
    } else {
      MulZero(1);
    }
  }

  lemma {:induction false} MulComm(a: Byte, b: Byte)
    ensures Mul(a, b) == Mul(b, a)
    decreases b
  {
    if b == 0 {
      MulZero(a);
    } else {
      var h := b / 2;
      HalfXor(b);
      MulXorLeft(Xtime(h), b % 2, a);
      XtimeMul(h, a);
      XtimeMul(a, h);
      MulComm(a, h);
      MulOne(a);
      MulZero(a);
      var rest := Mul(Xtime(a), h);
      XorComm(a, rest);
      XorZero(rest);
    }
  }

  lemma {:induction false} MulAssoc(a: Byte, b: Byte, c: Byte)
    ensures Mul(Mul(a, b), c) == Mul(a, Mul(b, c))
    decreases c
  {
    if c == 0 {
      MulZero(a);
    } else {
      var rest := Mul(Xtime(b), c / 2);
      MulXtime(a, b);
      MulAssoc(a, Xtime(b), c / 2);
      XorByte(b, rest);
      MulXorRight(a, b, rest);
    }
  }

  // --- powers of alpha -------------------------------------------------------------------------

  /** alpha to the power n, alpha = 2. */
  function Pow(n: nat): (r: Byte) {
    if n == 0 then 1 else Xtime(Pow(n - 1))
  }

  lemma {:induction false} PowAdd(m: nat, n: nat)
    ensures Pow(m + n) == Mul(Pow(m), Pow(n))
    decreases n
  {
    if n == 0 {
      MulOne(Pow(m));
    } else {
      PowAdd(m, n - 1);
      MulXtime(Pow(m), Pow(n - 1));
    }
  }

  lemma XtimeZero(a: Byte)
    ensures Xtime(a) == 0 <==> a == 0
  {
    XorZeroIff(2 * a, 0x11d);
  }

  lemma {:induction false} PowNonZero(n: nat)
    ensures Pow(n) != 0
  {
    if n > 0 {
      PowNonZero(n - 1);
      XtimeZero(Pow(n - 1));
    }
  }
}
