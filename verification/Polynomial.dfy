/** Polynomials over GF(256), highest coefficient first, and their values. */
module Polynomial {
  import opened Bits
  import opened Gf256

  type Poly = seq<Byte>

  /** Addition in GF(256), which is also subtraction. */
  function Add(a: Byte, b: Byte): (r: Byte) {
    XorByte(a, b);
    Xor(a, b)
  }

  lemma AddSwap(a: Byte, b: Byte, c: Byte, d: Byte)
    ensures Add(Add(a, b), Add(c, d)) == Add(Add(a, c), Add(b, d))
  {
    XorSwap(a, b, c, d);
  }

  lemma AddAssoc(a: Byte, b: Byte, c: Byte)
    ensures Add(Add(a, b), c) == Add(a, Add(b, c))
  {
    XorAssoc(a, b, c);
  }

  lemma AddComm(a: Byte, b: Byte)
    ensures Add(a, b) == Add(b, a)
  {
    XorComm(a, b);
  }

  lemma AddZero(a: Byte)
    ensures Add(a, 0) == a && Add(0, a) == a
  {
    XorZero(a);
  }

  /** The sum of two elements is zero exactly when they are equal. */
  lemma AddSelf(a: Byte, b: Byte)
    ensures Add(a, b) == 0 <==> a == b
  {
    XorZeroIff(a, b);
  }

  lemma MulAdd(k: Byte, a: Byte, b: Byte)
    ensures Mul(k, Add(a, b)) == Add(Mul(k, a), Mul(k, b))
    ensures Mul(Add(a, b), k) == Add(Mul(a, k), Mul(b, k))
  {
    XorByte(a, b);
    MulXorRight(k, a, b);
    MulXorLeft(a, b, k);
  }

  function AddPoly(p: Poly, q: Poly): (r: Poly)
    requires |p| == |q|
  {
    seq(|p|, i requires 0 <= i < |p| => Add(p[i], q[i]))
  }

  function Scale(p: Poly, k: Byte): (r: Poly) {
    seq(|p|, i requires 0 <= i < |p| => Mul(p[i], k))
  }

  function Zeros(n: nat): (r: Poly) {
    seq(n, _ => 0)
  }

  /** The value of p at x, by Horner's rule. */
  function Eval(p: Poly, x: Byte): Byte {
    if p == [] then 0 else Add(Mul(Eval(p[..|p| - 1], x), x), p[|p| - 1])
  }

  function PowerOf(x: Byte, n: nat): Byte {
    if n == 0 then 1 else Mul(PowerOf(x, n - 1), x)
  }

  lemma EvalSnoc(p: Poly, c: Byte, x: Byte)
    ensures Eval(p + [c], x) == Add(Mul(Eval(p, x), x), c)
  {
    assert (p + [c])[..|p|] == p;
  }

  lemma {:induction false} EvalZeros(n: nat, x: Byte)
    ensures Eval(Zeros(n), x) == 0
  {
    if n > 0 {
      EvalZeros(n - 1, x);
      assert Zeros(n)[..n - 1] == Zeros(n - 1);
      MulZero(x);
      AddZero(0);
    }
  }

  lemma {:induction false} EvalAdd(p: Poly, q: Poly, x: Byte)
    requires |p| == |q|
    ensures Eval(AddPoly(p, q), x) == Add(Eval(p, x), Eval(q, x))
  {
    if p == [] {
      AddZero(0);
    } else {
      var p', q' := p[..|p| - 1], q[..|q| - 1];
      EvalAdd(p', q', x);
      assert AddPoly(p, q)[..|p| - 1] == AddPoly(p', q');
      MulAdd(x, Eval(p', x), Eval(q', x));
      AddSwap(Mul(Eval(p', x), x), Mul(Eval(q', x), x), p[|p| - 1], q[|p| - 1]);
    }
  }

  lemma {:induction false} EvalScale(p: Poly, k: Byte, x: Byte)
    ensures Eval(Scale(p, k), x) == Mul(Eval(p, x), k)
  {
    if p == [] {
      MulZero(k);
    } else {
      var p' := p[..|p| - 1];
      EvalScale(p', k, x);
      assert Scale(p, k)[..|p| - 1] == Scale(p', k);
      MulAdd(k, Mul(Eval(p', x), x), p[|p| - 1]);
      MulAssoc(Eval(p', x), k, x);
      MulComm(k, x);
      MulAssoc(Eval(p', x), x, k);
    }
  }

  /** Splitting off the leading part multiplies it by the power of x it stands for. */
  lemma {:induction false} EvalConcat(p: Poly, q: Poly, x: Byte)
    ensures Eval(p + q, x) == Add(Mul(Eval(p, x), PowerOf(x, |q|)), Eval(q, x))
    decreases |q|
  {
    if q == [] {
      assert p + q == p;
      MulOne(Eval(p, x));
      AddZero(Eval(p, x));
    } else {
      var q', c := q[..|q| - 1], q[|q| - 1];
      EvalConcat(p, q', x);
      assert p + q == (p + q') + [c];
      EvalSnoc(p + q', c, x);
      MulAdd(x, Mul(Eval(p, x), PowerOf(x, |q'|)), Eval(q', x));
      MulAssoc(Eval(p, x), PowerOf(x, |q'|), x);
      AddAssoc(Mul(Eval(p, x), PowerOf(x, |q|)), Mul(Eval(q', x), x), c);
    }
  }

  lemma EvalOne(c: Byte, x: Byte)
    ensures Eval([c], x) == c
  {
    assert [c][..0] == [];
    MulZero(x);
    AddZero(c);
  }

  // --- powers of powers ------------------------------------------------------------------------

  lemma {:induction false} PowerOfMul(a: Byte, b: Byte, n: nat)
    ensures PowerOf(Mul(a, b), n) == Mul(PowerOf(a, n), PowerOf(b, n))
  {
    if n == 0 {
      MulOne(1);
    } else {
      PowerOfMul(a, b, n - 1);
      var pa, pb := PowerOf(a, n - 1), PowerOf(b, n - 1);
      MulAssoc(Mul(pa, pb), a, b);
      MulAssoc(pa, pb, a);
      MulComm(pb, a);
      MulAssoc(pa, a, pb);
      MulAssoc(Mul(pa, a), pb, b);
    }
  }

  /** (alpha^e)^i == (alpha^i)^e. */
  lemma {:induction false} PowerSwap(e: nat, i: nat)
    ensures PowerOf(Pow(e), i) == PowerOf(Pow(i), e)
    decreases e
  {
    if e == 0 {
      PowerOfOne(i);
    } else {
      PowerSwap(e - 1, i);
      PowAdd(e - 1, 1);
      PowerOfMul(Pow(e - 1), Pow(1), i);
      PowerOfAlpha(i);
    }
  }

  lemma {:induction false} PowerOfOne(i: nat)
    ensures PowerOf(1, i) == 1
  {
    if i > 0 {
      PowerOfOne(i - 1);
      MulOne(1);
    }
  }

  lemma {:induction false} PowerOfAlpha(i: nat)
    ensures PowerOf(Pow(1), i) == Pow(i)
  {
    if i > 0 {
      PowerOfAlpha(i - 1);
      PowAdd(i - 1, 1);
    }
  }
}
