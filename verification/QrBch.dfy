/** The BCH codes that protect the format and version information. */
module QrBch {
  import opened Bits

  /** The product of two binary polynomials. */
  function PolyMul(a: nat, b: nat): nat
    decreases b
  {
    if b == 0 then 0 else Xor(if b % 2 == 1 then a else 0, PolyMul(2 * a, b / 2))
  }

  /** x is a multiple of the binary polynomial g. */
  ghost predicate Divides(g: nat, x: nat) {
    exists q: nat :: PolyMul(g, q) == x
  }

  lemma {:induction false} PolyMulXor(a: nat, b: nat, c: nat)
    ensures PolyMul(a, Xor(b, c)) == Xor(PolyMul(a, b), PolyMul(a, c))
    decreases b + c
  {
    if b == 0 || c == 0 {
      XorZero(b);
      XorZero(c);
      XorZero(PolyMul(a, b));
      XorZero(PolyMul(a, c));
    } else {
      XorStep(b, c);
      PolyMulXor(2 * a, b / 2, c / 2);
      var p, q := PolyMul(2 * a, b / 2), PolyMul(2 * a, c / 2);
      XorSwap(if b % 2 == 1 then a else 0, p, if c % 2 == 1 then a else 0, q);
      XorSelf(a);
      XorZero(a);
      XorZero(Xor(p, q));
      PolyMulParts(a, Xor(b, c), Xor(p, q));
    }
  }

  lemma PolyMulParts(a: nat, b: nat, rest: nat)
    requires PolyMul(2 * a, b / 2) == rest
    ensures PolyMul(a, b) == Xor(if b % 2 == 1 then a else 0, rest)
  {
    XorZero(0);
    if b == 0 {
      assert rest == 0;
    }
  }

  lemma PolyMulEven(a: nat, p: nat)
    ensures PolyMul(a, 2 * p) == PolyMul(2 * a, p)
  {
    XorZero(PolyMul(2 * a, p));
  }

  lemma PolyMulOne(a: nat)
    ensures PolyMul(a, 1) == a
  {
    XorZero(a);
    assert PolyMul(2 * a, 0) == 0;
  }

  lemma DoubleProduct(a: nat, p: nat)
    ensures 2 * a * p == a * (2 * p)
  {
  }

  lemma {:induction false} PolyMulPow2(a: nat, k: nat)
    ensures PolyMul(a, Pow2(k)) == a * Pow2(k)
    decreases k
  {
    if k == 0 {
      PolyMulOne(a);
    } else {
      PolyMulPow2(2 * a, k - 1);
      PolyMulEven(a, Pow2(k - 1));
      DoubleProduct(a, Pow2(k - 1));
    }
  }

  lemma {:induction false} Pow2Add(m: nat, n: nat)
    ensures Pow2(m + n) == Pow2(m) * Pow2(n)
  {
    if n > 0 {
      Pow2Add(m, n - 1);
    }
  }

  lemma {:induction false} BitIsTop(v: nat, k: nat)
    requires v < 2 * Pow2(k)
    ensures BitAt(v, k) == if v >= Pow2(k) then 1 else 0
  {
    if k > 0 {
      BitIsTop(v / 2, k - 1);
    }
  }

  /** g is a binary polynomial of degree n. */
  predicate Degree(g: nat, n: nat) {
    Pow2(n) <= g < 2 * Pow2(n)
  }

  /** One step of the division: bit k + n is cleared by g shifted to it, and the difference stays a multiple. */
  lemma DivisionStep(whole: nat, v: nat, g: nat, n: nat, k: nat)
    requires Degree(g, n) && v < 2 * Pow2(n + k)
    requires Divides(g, Xor(whole, v))
    ensures BitAt(v, n + k) == 1 ==>
              Xor(v, g * Pow2(k)) < Pow2(n + k) && Divides(g, Xor(whole, Xor(v, g * Pow2(k))))
    ensures BitAt(v, n + k) != 1 ==> v < Pow2(n + k)
  {
    BitIsTop(v, n + k);
    if BitAt(v, n + k) == 1 {
      var s := g * Pow2(k);
      ShiftedDegree(g, n, k);
      XorTop(v, s, n + k);
      var q: nat :| PolyMul(g, q) == Xor(whole, v);
      PolyMulXor(g, q, Pow2(k));
      PolyMulPow2(g, k);
      XorAssoc(whole, v, s);
    }
  }

  lemma MulLess(a: nat, b: nat, p: nat)
    requires a < b && p > 0
    ensures a * p < b * p
  {
  }

  lemma ShiftedDegree(g: nat, n: nat, k: nat)
    requires Degree(g, n)
    ensures Pow2(n + k) <= g * Pow2(k) < 2 * Pow2(n + k)
  {
    Pow2Add(n, k);
    if g > Pow2(n) {
      MulLess(Pow2(n), g, Pow2(k));
    }
    MulLess(g, 2 * Pow2(n), Pow2(k));
    DoubleProduct(Pow2(n), Pow2(k));
    TwiceProduct(Pow2(n), Pow2(k));
  }

  lemma TwiceProduct(a: nat, p: nat)
    ensures a * (2 * p) == 2 * (a * p)
  {
  }

  lemma {:induction false} XorDisjoint(high: nat, low: nat, n: nat)
    requires low < Pow2(n)
    ensures Xor(high * Pow2(n), low) == high * Pow2(n) + low
  {
    if n == 0 {
      XorZero(high);
    } else {
      XorDisjoint(high, low / 2, n - 1);
      TwiceProduct(high, Pow2(n - 1));
      XorLowBit(high * Pow2(n - 1), low);
    }
  }

  lemma XorLowBit(half: nat, low: nat)
    requires Xor(half, low / 2) == half + low / 2
    ensures Xor(2 * half, low) == 2 * half + low
  {
    XorStep(2 * half, low);
  }

  lemma DataFits(data: nat, dataBits: nat, n: nat)
    requires data < Pow2(dataBits)
    ensures data * Pow2(n) < Pow2(n + dataBits)
  {
    Pow2Add(dataBits, n);
    MulLess(data, Pow2(dataBits), Pow2(n));
  }

  lemma DividesSelf(g: nat, whole: nat)
    ensures Divides(g, Xor(whole, whole))
  {
    XorSelf(whole);
    assert PolyMul(g, 0) == 0;
  }

  /** The remainder loop both codes share: the word data * 2^n + v is a multiple of g. */
  method Remainder(data: nat, dataBits: nat, g: nat, n: nat) returns (v: nat)
    requires data < Pow2(dataBits) && Degree(g, n)
    ensures v < Pow2(n) && Divides(g, data * Pow2(n) + v)
  {
    hide Degree, Divides, Xor, BitAt;
    v := data * Pow2(n);
    ghost var whole := v;
    DataFits(data, dataBits, n);
    DividesSelf(g, whole);
    var i := n + dataBits;
    while i > n
      invariant n <= i && v < Pow2(i)
      invariant Divides(g, Xor(whole, v))
    {
      i := i - 1;
      DivisionStep(whole, v, g, n, i - n);
      v := ClearBit(v, i, g * Pow2(i - n));
    }
    XorDisjoint(data, v, n);
  }

  /** v with `shifted` subtracted when bit i is set. */
  function ClearBit(v: nat, i: nat, shifted: nat): nat {
    if BitAt(v, i) == 1 then Xor(v, shifted) else v
  }

  // --- the check bits are determined -----------------------------------------------------------

  lemma {:induction false} XorHigh(a: nat, b: nat, k: nat)
    requires a >= Pow2(k) && b < Pow2(k)
    ensures Xor(a, b) >= Pow2(k)
    decreases k
  {
    if k == 0 {
      XorZero(a);
    } else {
      XorHigh(a / 2, b / 2, k - 1);
      XorStep(a, b);
    }
  }

  /** A non-zero multiple of a polynomial has at least its degree. */
  lemma {:induction false} ProductDegree(g: nat, q: nat, n: nat)
    requires Degree(g, n) && q > 0
    ensures PolyMul(g, q) >= Pow2(n)
    decreases q
  {
    if q == 1 {
      PolyMulOne(g);
    } else {
      ProductDegree(2 * g, q / 2, n + 1);
      var rest := PolyMul(2 * g, q / 2);
      XorZero(rest);
      XorHigh(rest, g, n + 1);
      XorComm(rest, g);
    }
  }

  /** The only multiple of g below its degree is zero. */
  lemma LowMultiple(g: nat, n: nat, q: nat)
    requires Degree(g, n) && PolyMul(g, q) < Pow2(n)
    ensures PolyMul(g, q) == 0
  {
    if q > 0 {
      ProductDegree(g, q, n);
    }
  }

  lemma LowDifference(g: nat, n: nat, q: nat, r: nat)
    requires Degree(g, n) && Xor(PolyMul(g, q), PolyMul(g, r)) < Pow2(n)
    ensures Xor(PolyMul(g, q), PolyMul(g, r)) == 0
  {
    PolyMulXor(g, q, r);
    LowMultiple(g, n, Xor(q, r));
  }

  /** Check bits are determined: two multiples of g that agree from bit n on are the same word. */
  lemma UniqueWord(g: nat, n: nat, x: nat, y: nat)
    requires Degree(g, n) && Divides(g, x) && Divides(g, y) && Xor(x, y) < Pow2(n)
    ensures x == y
  {
    var q: nat :| PolyMul(g, q) == x;
    var r: nat :| PolyMul(g, r) == y;
    LowDifference(g, n, q, r);
    XorZeroIff(x, y);
  }

  /** Two multiples of g with the same data bits are the same word. */
  lemma SameData(g: nat, n: nat, x: nat, y: nat)
    requires Degree(g, n) && Divides(g, x) && Divides(g, y) && x / Pow2(n) == y / Pow2(n)
    ensures x == y
  {
    hide Degree, Divides, Xor, Pow2;
    var p := Pow2(n);
    Splits(x, p);
    Splits(y, p);
    SameHigh(x / p, x % p, y % p, n);
    UniqueWord(g, n, x, y);
  }

  lemma Splits(x: nat, p: nat)
    requires p >= 1
    ensures x == x / p * p + x % p && x % p < p
  {
  }

  lemma SameHigh(high: nat, a: nat, b: nat, n: nat)
    requires a < Pow2(n) && b < Pow2(n)
    ensures Xor(high * Pow2(n) + a, high * Pow2(n) + b) < Pow2(n)
  {
    hide Xor, Pow2;
    var h := high * Pow2(n);
    XorDisjoint(high, a, n);
    XorDisjoint(high, b, n);
    XorSwap(h, a, h, b);
    XorSelf(h);
    XorZero(Xor(a, b));
    XorBound(a, b, n);
  }
}
